# TodoApp in Dafny

A model of the `TodoApp` class of a browser todo list (`script.js`). The app keeps an ordered list of
todo records (`id`, `text`, `memo`, `time`, `completed`, `createdAt`), an edit cursor (`editingId`),
a theme flag (`isDarkMode`), an auto-backup flag (`autoBackupEnabled`) and an in-memory snapshot
(`_storageData`). Its handlers add a record in front, flip `completed`, delete by id, move the edit
cursor and save edits, export the state as a backup document, and import a backup document by
validating it, back-filling missing fields and then merging by id or overwriting.

Modules, leaves first:

- `Wrappers` (wrappers.dfy): `Option` for an absent property or `NaN`, `Result` for a thrown error.
- `JsString` (jsstring.dfy): the JavaScript built-ins the class calls: `trim` (the full ECMAScript
  whitespace set), `split` on one character, `parseInt` without a radix (whitespace, sign, `0x`,
  longest digit run, `NaN`) and the decimal `toString` of a number.
- `Todos` (todos.dfy): the record, and the pure list operations behind the handlers: `find` by id,
  flipping `completed`, replacing the edited fields, `filter` by id, counting completed records.
- `TimeFormat` (time_format.dfy): `formatTime`, the Korean 12-hour display (오전/오후).
- `Backup` (backup.dfy): the parsed backup document, the entry checks and back-filling of
  `importData` (its `for` loop is the method `ValidateEntries`), the merge, and the export documents.
- `Storage` (storage.dfy): the snapshot `saveToStorage` writes and `loadFromStorage` reads.
- `View` (view.dfy): what `updateUI` draws: one row per record, the `isEditing` decision, the
  three counters and the empty-list check (`this.todos.length === 0`) that decides the placeholder.
- `App` (app.dfy): the class `TodoApp` with a `seq<Todo>` field and one method per handler.
  `Valid()` says every record held or stored has a non-empty id, text and creation stamp; every
  handler that changes the records or flags ends with the snapshot equal to the state (`Synced()`).

Inputs the browser supplies are parameters: the typed values, the answer to `confirm`, the clock
(`Date.now()` as `nowMs: nat`, `new Date().toISOString()` as a non-empty `Timestamp`) and the result
of `JSON.parse` as a `Backup.Document`. A download is modelled as the document it would carry,
returned by the handler.

Behaviour the model keeps as the code has it, where a reader might expect otherwise:

- `startEdit` sets the cursor without checking that a record has the id, and `deleteTodo` does not
  clear the cursor when the edited record is deleted. `View.DeletedRowNotEditing` shows that no row
  is drawn in edit mode afterwards, although the cursor still holds the id.
- Adding with blank text is a silent no-op, not an error.
- `toggleTodo` and `saveEdit` change only the first record with the id (`find`); `deleteTodo` removes
  every record with it (`filter`).
- The merge compares imported ids only against the existing ones: two imported records sharing a new
  id are both appended.
- Back-filling treats fields differently: `memo`, `time` and `completed` are filled only when
  undefined, `createdAt` also when it is the empty string.
- A `null` entry in the imported `todos` array makes `todo.id` throw a TypeError, so the import
  reports that error rather than the corrupt-entry message; an entry that is a number, string,
  boolean or array reaches the corrupt-entry check. Which error is reported depends on the first
  refused entry (`Backup.ParseRejects`).
- The empty-list placeholder is shown only until the list first holds a record: the first render
  with records replaces the list's contents (script.js:244), which removes the `#empty-state`
  element that the empty render had moved into the list (script.js:237-238). From then on both
  `renderTodoList` and `toggleEmptyState` find no such element. `View.Project`'s `listEmpty` is the
  `this.todos.length === 0` check the code makes, not what ends up on screen.
- Ids come from `Date.now()`, so two records can share an id; nothing here assumes they are unique.

## Model

| member | source | states |
|---|---|---|
| `JsString.Trim` | script.js:74-75 | the result is a slice of the input with only whitespace cut off both ends, empty exactly when the input is all whitespace, and neither end of a non-empty result is whitespace |
| `JsString.Split` | script.js:250 | `split(':')` yields at least one part, no part holds the separator, and joining the parts gives the input back |
| `JsString.ParseInt` | script.js:251 | whitespace-only input is NaN; input starting with a digit 1-9 after whitespace gives a non-negative number; a negative result needs a leading '-' |
| `JsString.SplitJoin` | script.js:250 | splitting undoes joining for separator-free parts |
| `JsString.NatToString` | script.js:80 | the decimal form of `Date.now()` is a non-empty digit string without leading zeros |
| `JsString.DigitsValueOfNatToString` | script.js:80 | the digits of the decimal form denote the number itself |
| `JsString.ParseIntOfNatToString` | script.js:251 | `parseInt` reads the decimal form of a non-negative integer back as that integer |
| `JsString.ParseIntOfIntToString` | script.js:251-253 | `parseInt` reads the decimal form of any integer back as that integer, so the hour `formatTime` prints (negative for a negative input hour) reads back as its value |
| `Todos.FirstIndex` | script.js:104 | `find` by id: the position returned carries the id and no earlier record does; none is returned exactly when no record carries the id |
| `Todos.FirstIndexSameIds` | script.js:104 | the search depends only on the ids of the records |
| `Todos.Toggled` | script.js:103-106 | same length and ids; the first record with the id has `completed` flipped and every other record and field is unchanged; an unknown id changes nothing |
| `Todos.ToggledTwice` | script.js:103-106 | toggling the same id twice restores the list |
| `Todos.Edited` | script.js:161-165 | the first record with the id takes the new text, memo and time and keeps id, `completed` and `createdAt`; every other record is unchanged; an unknown id changes nothing |
| `Todos.Exclude` | script.js:120 | the result holds exactly the records whose id is not excluded and is no longer than the input |
| `Todos.ExcludeAppend` | script.js:120 | filtering distributes over concatenation, so kept records stay in their original relative order |
| `Todos.ExcludeDisjoint` | script.js:408 | filtering out ids no record carries keeps every record |
| `Todos.ExcludeOwnIds` | script.js:407-408 | filtering out all ids of a list leaves nothing |
| `Todos.ExcludeAbsent` | script.js:120 | deleting an id no record carries leaves the list unchanged |
| `Todos.CountCompleted` | script.js:312 | the completed count is at most the total, zero exactly when no record is completed, the total exactly when all are |
| `Todos.CountCompletedUpdate` | script.js:312 | replacing one record changes the count by the difference of the two records' contributions |
| `Todos.CountCompletedAppend` | script.js:312 | the count of a concatenation is the sum of the counts |
| `Todos.ToggledCount` | script.js:103-106 | toggling a present id moves the completed count by exactly one, down if the record was completed and up otherwise |
| `TimeFormat.Hour12` | script.js:253 | for an hour of the day the displayed hour lies in 1..12 and agrees with the hour modulo 12; hours 1..12 are shown as they are |
| `TimeFormat.Meridiem` | script.js:252 | the label is 오전 or 오후, and 오후 exactly when the hour is a number >= 12 (NaN gives 오전) |
| `TimeFormat.DisplayHour` | script.js:253-254 | NaN prints as "NaN"; a number prints as text that `parseInt` reads back as its 12-hour value |
| `TimeFormat.FormatTime` | script.js:248-255 | the result is empty exactly when the time is empty |
| `TimeFormat.FormatTimeOfClockTime` | script.js:248-254 | for `HH:MM` with HH in 0..23 the result is 오후 exactly when HH >= 12 (else 오전), a space, the 12-hour hour, a colon and the minutes unchanged |
| `Backup.BackFill` | script.js:394-398 | every back-filled record is well formed (non-empty id, text and createdAt) |
| `Backup.CheckEntries` | script.js:390-399 | fails exactly when some entry lacks a non-empty `id` or `text`, with the error of the first such entry (TypeError for `null`, corrupt-entry otherwise); a success has one well-formed record per entry |
| `Backup.FirstUnacceptable` | script.js:390-393 | the position where the loop stops: every earlier entry is accepted and the entry there is refused, or the length when none is |
| `Backup.ValidateEntries` | script.js:390-399 | the entry loop returns exactly what the whole-array statement `CheckEntries` gives: the error of the first entry lacking a non-empty id or text if there is one, else every entry back-filled in order |
| `Backup.Parse` | script.js:378-399 | a success comes from an object document, carries its `isDarkMode` and `autoBackupEnabled` as given (absent stays absent), and holds only well-formed records |
| `Backup.ParseRejects` | script.js:378-435 | a document is accepted exactly when it has a `todos` array whose every entry has a non-empty `id` and `text`; unparsable, non-object and missing-array documents report their own errors; otherwise the first refused entry decides: `null` reports the TypeError of `todo.id`, anything else the corrupt-entry error |
| `Backup.ParseBackFills` | script.js:394-398 | on success: ids and texts are kept; memo, time and completed are the entry's when defined and "", "" and false only when undefined; createdAt is replaced by the clock only when undefined or empty; the settings are carried as given |
| `Backup.Merge` | script.js:405-409 | the existing records come first and unchanged, then exactly the imported records whose id is not among the existing ids |
| `Backup.Inserted` | script.js:408-410 | the count reported is the number of imported records whose id is not among the existing ids (`newTodos.length`) |
| `Backup.MergeSelf` | script.js:407-409 | merging a list into itself appends nothing |
| `Backup.MergeDisjoint` | script.js:407-410 | with disjoint ids every imported record is appended and the count reported is the number imported |
| `Backup.MergeKeepsOrder` | script.js:408-409 | appended records keep their imported relative order |
| `Backup.MergeAddsNoExistingId` | script.js:407-408 | no appended record carries an existing id |
| `Backup.MergeExample` | script.js:402-410 | one record "1", importing an entry "2"/"B" with no other properties: the merge appends it with "", "" and false filled in and reports one |
| `Backup.ManualExport` | script.js:340-346 | the manual backup carries the records, both flags, the export date and version "1.0", without an `autoBackup` property |
| `Backup.AutoBackup` | script.js:474-484 | an automatic backup is made exactly when auto-backup is on and there are records, and it carries the records, both flags, the date, version "1.0" and `autoBackup: true` |
| `Backup.ExportImportRoundTrip` | script.js:340-346 | importing a backup of well-formed records gives back exactly those records and both flags |
| `Backup.ReimportOwnBackupMerges` | script.js:405-409 | merging a backup of the current records back in leaves the records unchanged |
| `Storage.Capture` | script.js:553-561 | the stored snapshot has all three properties |
| `Storage.Restore` | script.js:564-574 | nothing stored gives [], false, false; a missing stored property gives its default |
| `Storage.RestoreCapture` | script.js:553-574 | loading what was saved restores the saved records and flags |
| `View.Project` | script.js:222-335 | one row per record, each `Row` of that record under the cursor; `completed` is `CountCompleted` of the records, `pending` = total - completed >= 0, the empty-list check holds exactly when there are no records |
| `View.Row` | script.js:258-293 | the row shows the record's id, text, memo and completion; it is in edit mode exactly when the cursor holds the id; memo and time parts appear when non-empty or in edit mode; outside edit mode a non-empty time is shown through `formatTime` |
| `View.AtMostOneEditing` | script.js:259 | when ids are distinct at most one row is in edit mode |
| `View.AddedInFront` | script.js:88 | adding an open record in front adds its row in front, one to the total and one to the pending count, and the empty-list check fails |
| `View.DeletedRowNotEditing` | script.js:120 | after deleting the record under the cursor no row is in edit mode |
| `View.EditedRowShowsNewFields` | script.js:161-165 | after an edit, the edited row shows the new text and memo under the same id and completion, and outside edit mode the new time through `formatTime` |
| `App.TodoApp.constructor` | script.js:3-18 | a new app has no records, no cursor, both flags off and nothing stored |
| `App.TodoApp.SaveToStorage` | script.js:553-561 | the stored snapshot equals the records and flags |
| `App.TodoApp.LoadFromStorage` | script.js:564-574 | the state becomes the restored snapshot; when the snapshot was in sync nothing changes |
| `App.TodoApp.PerformAutoBackup` | script.js:473-484 | returns the automatic backup document of the current state, or none |
| `App.TodoApp.ExportData` | script.js:338-346 | returns the manual backup document of the current state |
| `App.TodoApp.AddTodo` | script.js:69-100 | adds exactly when the trimmed text is non-empty: the new open record with the trimmed text and memo, the time as typed, the id from the clock, in front of the old list in its old order; then saves and backs up; otherwise nothing changes |
| `App.TodoApp.ToggleTodo` | script.js:103-115 | the records become `Toggled`; saves and backs up only when the id was found |
| `App.TodoApp.DeleteTodo` | script.js:118-129 | when confirmed every record with the id is removed and the rest keep their order, then saves and backs up; otherwise nothing changes |
| `App.TodoApp.StartEdit` | script.js:132-134 | the cursor holds the id |
| `App.TodoApp.SaveEdit` | script.js:149-175 | saves exactly when the id is present and the new text non-empty: the records become `Edited` and the cursor is cleared, then saves and backs up; otherwise records, cursor and snapshot are unchanged |
| `App.TodoApp.CancelEdit` | script.js:178-181 | the cursor is cleared and nothing else changes |
| `App.TodoApp.ToggleTheme` | script.js:211-219 | flips the theme flag and saves |
| `App.TodoApp.ToggleAutoBackup` | script.js:450-454 | flips the auto-backup flag and saves |
| `App.TodoApp.ImportData` | script.js:374-431 | a refused document changes nothing and reports its error; otherwise merges when there were records and the user confirmed, else overwrites, reports the count, takes each flag only when present, and saves |

## Left out

- DOM access and event wiring: `bindEvents`, the string dispatch of `handleTodoClick`, the HTML of
  `createTodoItem` beyond what each row shows, theme classes and icons, `updateAutoBackupUI`,
  `showNotification`, focusing with `setTimeout`, clearing the input fields after an add.
- Reading the edited row in `saveEdit` (`textContent`/`value`, script.js:150-159): the new text,
  memo and time are parameters, already trimmed. Its early return when no row element has the id
  coincides with no record having it, since every record is drawn.
- File I/O: `FileReader`, `readAsText` and its error callback (which only notifies), `Blob`, object
  URLs, the download anchors and the download file names.
- `JSON.parse` and `JSON.stringify`: a parsed document is a `Backup.Document`. Properties are
  modelled only with the types the app itself writes (strings and booleans); a backup whose
  properties carry other JSON types (a numeric id, a null flag) is not modelled, nor are extra
  properties a record may carry.
- `ImportData` (through `Parse` and `ValidateEntries`) uses one `Timestamp` for every back-filled
  `createdAt`; script.js:398 reads the clock once per entry, so the source's stamps may differ.
- `Date.now()` and `new Date().toISOString()` are parameters. `AddTodo` takes one `Timestamp` for
  `createdAt` and for the backup's `exportDate`, which the source reads from the clock separately.
- `confirm` is a boolean parameter; `console.log` and `console.error` are dropped.
- `JsString.ParseInt`: JavaScript numbers are doubles, so digit runs beyond 2^53 lose precision and
  `-0` is distinct from 0; integers here are exact. Number-to-string in exponent form is not modelled.
- Sharing: in the source `_storageData.todos` is the very array `this.todos`, and records are
  shared objects. The model stores a copy. The only reader, `loadFromStorage`, runs in the
  constructor before anything is saved, and every handler that changes records or flags saves at its
  end, so the copy and the shared array agree whenever they are read.
- Back-filling in place: `importData` writes the defaults into the parsed objects; the model builds
  new records. The parsed objects are dropped when validation fails, so the outcome is the same.
- A failure of the DOM theme-icon lookup inside the import's `try` block, after the records were
  replaced, is not modelled.
