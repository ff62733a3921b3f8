/**
 * Backup files: the document exportData and performAutoBackup write, and the checks,
 * back-filling and reconciliation importData applies to a parsed document. The text
 * of a file and JSON.parse/JSON.stringify are not modelled: a parsed document is a value
 * of `Document`, in which an absent property is `None`.
 */
module Backup {
  import opened Wrappers
  import opened Todos

  /** One element of the parsed `todos` array, as the importer reads it. */
  datatype Entry =
    | NullValue   // null: reading its `id` throws
    | NonRecord   // a number, a string, a boolean or an array: its `id` and `text` are undefined
    | Record(id: Option<string>, text: Option<string>, memo: Option<string>, time: Option<string>,
             completed: Option<bool>, createdAt: Option<string>)

  /** The document's `todos` property when present: an array, or any other (or falsy) value. */
  datatype TodosField = NotAnArray | Array(entries: seq<Entry>)

  /** What JSON.parse made of the file. */
  datatype Document =
    | Unparsable   // JSON.parse threw
    | NonObject    // null or a primitive value; an array is an object here, with no `todos` property
    | Object(todos: Option<TodosField>, isDarkMode: Option<bool>, autoBackupEnabled: Option<bool>)

  /** The five ways the import's `try` block ends in its `catch`. */
  datatype ImportError =
    | ParseFailed      // JSON.parse threw
    | InvalidFile      // the value is not an object
    | InvalidTodoList  // `todos` is absent or not an array
    | ReadOfNull       // the first refused entry is null: `todo.id` threw a TypeError
    | CorruptTodo      // the first refused entry lacks a non-empty `id` or `text`

  /** A validated document: the back-filled records and the settings it carries, if any. */
  datatype Parsed = Parsed(todos: seq<Todo>, isDarkMode: Option<bool>, autoBackupEnabled: Option<bool>)

  /** The entry passes `!todo.id || !todo.text`. */
  predicate Acceptable(e: Entry) {
    e.Record? && e.id.Some? && e.id.value != "" && e.text.Some? && e.text.value != ""
  }

  /**
   * The record an acceptable entry becomes: `memo`, `time` and `completed` take "", "" and false
   * when undefined; `createdAt` takes `now` when undefined or empty.
   */
  function BackFill(e: Entry, now: Timestamp): (t: Todo)
    requires Acceptable(e)
    ensures WellFormed(t)
  {
    Todo(e.id.value, e.text.value, e.memo.GetOr(""), e.time.GetOr(""), e.completed.GetOr(false),
         if e.createdAt.GetOr("") == "" then now else e.createdAt.value)
  }

  /** The error the loop reports when it stops at entry `e`. */
  function Rejection(e: Entry): ImportError {
    if e.NullValue? then ReadOfNull else CorruptTodo
  }

  /** The position of the first entry the loop refuses, or the length when it refuses none. */
  function FirstUnacceptable(entries: seq<Entry>): (k: nat)
    ensures k <= |entries|
    ensures k < |entries| ==> !Acceptable(entries[k])
    ensures forall j :: 0 <= j < k ==> Acceptable(entries[j])
  {
    if entries == [] then 0
    else if !Acceptable(entries[0]) then 0
    else 1 + FirstUnacceptable(entries[1..])
  }

  /** The outcome of the entry loop, stated over the whole array at once. */
  function CheckEntries(entries: seq<Entry>, now: Timestamp): (r: Result<seq<Todo>, ImportError>)
    ensures r.Err? <==> exists i :: 0 <= i < |entries| && !Acceptable(entries[i])
    ensures r.Err? ==> FirstUnacceptable(entries) < |entries| && r.error == Rejection(entries[FirstUnacceptable(entries)])
    ensures r.Ok? ==> |r.value| == |entries| && AllWellFormed(r.value)
  {
    var k := FirstUnacceptable(entries);
    if k == |entries| then
      Ok(seq(|entries|, i requires 0 <= i < |entries| => BackFill(entries[i], now)))
    else
      Err(Rejection(entries[k]))
  }

  /**
   * The `for (let todo of data.todos)` loop: it stops at the first corrupt entry and otherwise
   * fills in the missing fields of each entry, one at a time.
   */
  method ValidateEntries(entries: seq<Entry>, now: Timestamp) returns (r: Result<seq<Todo>, ImportError>)
    ensures r == CheckEntries(entries, now)
  {
    var filled: seq<Todo> := [];
    for i := 0 to |entries|
      invariant |filled| == i
      invariant forall k :: 0 <= k < i ==> Acceptable(entries[k]) && filled[k] == BackFill(entries[k], now)
    {
      var e := entries[i];
      if e.NullValue? {
        assert FirstUnacceptable(entries) == i;
        return Err(ReadOfNull);
      }
      if e.NonRecord? || e.id.None? || e.id.value == "" || e.text.None? || e.text.value == "" {
        assert FirstUnacceptable(entries) == i;
        return Err(CorruptTodo);
      }
      var memo := if e.memo.None? then "" else e.memo.value;
      var time := if e.time.None? then "" else e.time.value;
      var completed := if e.completed.None? then false else e.completed.value;
      var createdAt := if e.createdAt.None? || e.createdAt.value == "" then now else e.createdAt.value;
      filled := filled + [Todo(e.id.value, e.text.value, memo, time, completed, createdAt)];
    }
    assert filled == seq(|entries|, i requires 0 <= i < |entries| => BackFill(entries[i], now));
    return Ok(filled);
  }

  /** The checks of importData up to the merge decision, as one function of the document. */
  function Parse(doc: Document, now: Timestamp): (r: Result<Parsed, ImportError>)
    ensures r.Ok? ==> doc.Object? && r.value.isDarkMode == doc.isDarkMode
                      && r.value.autoBackupEnabled == doc.autoBackupEnabled && AllWellFormed(r.value.todos)
  {
    match doc
    case Unparsable => Err(ParseFailed)
    case NonObject => Err(InvalidFile)
    case Object(todos, dark, auto) =>
      if todos.None? || todos.value.NotAnArray? then Err(InvalidTodoList)
      else match CheckEntries(todos.value.entries, now)
        case Err(e) => Err(e)
        case Ok(ts) => Ok(Parsed(ts, dark, auto))
  }

  /** The entries of a document whose `todos` is an array, or nothing. */
  function EntriesOf(doc: Document): Option<seq<Entry>> {
    if doc.Object? && doc.todos.Some? && doc.todos.value.Array? then Some(doc.todos.value.entries) else None
  }

  /**
   * A document is refused exactly when it did not parse, is not an object, has no `todos` array,
   * or has an entry without a non-empty `id` and `text`; each case has its own error, and a
   * refused entry reports the TypeError of a null entry or the corrupt-entry error according to
   * the first refused entry.
   */
  lemma ParseRejects(doc: Document, now: Timestamp)
    ensures Parse(doc, now).Ok? <==>
      EntriesOf(doc).Some? && forall i :: 0 <= i < |EntriesOf(doc).value| ==> Acceptable(EntriesOf(doc).value[i])
    ensures doc.Unparsable? ==> Parse(doc, now) == Err(ParseFailed)
    ensures doc.NonObject? ==> Parse(doc, now) == Err(InvalidFile)
    ensures doc.Object? && EntriesOf(doc).None? ==> Parse(doc, now) == Err(InvalidTodoList)
    ensures EntriesOf(doc).Some? && Parse(doc, now).Err? ==>
      var es := EntriesOf(doc).value;
      exists k :: 0 <= k < |es| && !Acceptable(es[k]) && (forall j :: 0 <= j < k ==> Acceptable(es[j]))
        && Parse(doc, now) == Err(if es[k].NullValue? then ReadOfNull else CorruptTodo)
  {
    if EntriesOf(doc).Some? {
      var es := EntriesOf(doc).value;
      if !(forall i :: 0 <= i < |es| ==> Acceptable(es[i])) {
        assert CheckEntries(es, now).Err?;
        var k := FirstUnacceptable(es);
        assert !Acceptable(es[k]) && forall j :: 0 <= j < k ==> Acceptable(es[j]);
      }
    }
  }

  /**
   * On success every record keeps the entry's id and text, takes the entry's memo, time and
   * completed when defined and "", "" and false only when undefined, and takes `now` as
   * createdAt only when the entry's is undefined or empty; the settings are carried over as given.
   */
  lemma ParseBackFills(doc: Document, now: Timestamp)
    requires Parse(doc, now).Ok?
    ensures var es := EntriesOf(doc).value; var p := Parse(doc, now).value;
      && |p.todos| == |es|
      && p.isDarkMode == doc.isDarkMode && p.autoBackupEnabled == doc.autoBackupEnabled
      && forall i :: 0 <= i < |es| ==>
        && es[i].Record?
        && p.todos[i].id == es[i].id.value && p.todos[i].text == es[i].text.value
        && p.todos[i].memo == (if es[i].memo.Some? then es[i].memo.value else "")
        && p.todos[i].time == (if es[i].time.Some? then es[i].time.value else "")
        && p.todos[i].completed == (if es[i].completed.Some? then es[i].completed.value else false)
        && p.todos[i].createdAt == (if es[i].createdAt.Some? && es[i].createdAt.value != "" then es[i].createdAt.value else now)
  {
    ParseRejects(doc, now);
  }

  // ---------------------------------------------------------------- reconciliation

  /**
   * The merge branch: the existing records, then the imported records whose id is not among the
   * existing ids, in their imported order (`[...this.todos, ...newTodos]`).
   */
  function Merge(existing: seq<Todo>, imported: seq<Todo>): (r: seq<Todo>)
    ensures |existing| <= |r| <= |existing| + |imported|
    ensures r[..|existing|] == existing
    ensures forall t :: t in r[|existing|..] <==> t in imported && t.id !in Ids(existing)
  {
    var r := existing + Exclude(imported, Ids(existing));
    assert r[..|existing|] == existing && r[|existing|..] == Exclude(imported, Ids(existing));
    r
  }

  /** The number the merge notification reports: how many records were appended. */
  function Inserted(existing: seq<Todo>, imported: seq<Todo>): (n: nat)
    ensures n == |Exclude(imported, Ids(existing))|
  {
    |Merge(existing, imported)| - |existing|
  }

  /** Merging a list into itself appends nothing. */
  lemma MergeSelf(s: seq<Todo>)
    ensures Merge(s, s) == s && Inserted(s, s) == 0
  {
    ExcludeOwnIds(s, Ids(s));
    assert s + [] == s;
  }

  /** When no imported id is already present, every imported record is appended. */
  lemma MergeDisjoint(existing: seq<Todo>, imported: seq<Todo>)
    requires Ids(existing) !! Ids(imported)
    ensures Merge(existing, imported) == existing + imported
    ensures Inserted(existing, imported) == |imported|
  {
    ExcludeDisjoint(imported, Ids(existing));
  }

  /** Imported records keep their relative order: merging a concatenation appends piecewise. */
  lemma MergeKeepsOrder(existing: seq<Todo>, a: seq<Todo>, b: seq<Todo>)
    ensures Merge(existing, a + b) == Merge(existing, a) + Exclude(b, Ids(existing))
  {
    ExcludeAppend(a, b, Ids(existing));
  }

  /** No appended record reuses an existing id. */
  lemma MergeAddsNoExistingId(existing: seq<Todo>, imported: seq<Todo>, j: nat)
    requires |existing| <= j < |Merge(existing, imported)|
    ensures Merge(existing, imported)[j].id !in Ids(existing)
  {
    var r := Merge(existing, imported);
    assert r[j] == r[|existing|..][j - |existing|];
  }

  /**
   * A worked example: one record "1"/"A"; importing one entry "2"/"B" without other properties
   * and merging appends it, back-filled, and reports one new record.
   */
  lemma MergeExample(now: Timestamp)
    ensures var existing := [Todo("1", "A", "", "", false, now)];
      var doc := Object(Some(Array([Record(Some("2"), Some("B"), None, None, None, None)])), None, None);
      && Parse(doc, now).Ok?
      && Merge(existing, Parse(doc, now).value.todos) == existing + [Todo("2", "B", "", "", false, now)]
      && Inserted(existing, Parse(doc, now).value.todos) == 1
  {
    var existing := [Todo("1", "A", "", "", false, now)];
    var imported := [Todo("2", "B", "", "", false, now)];
    var entries := [Record(Some("2"), Some("B"), None, None, None, None)];
    assert seq(|entries|, i requires 0 <= i < |entries| => BackFill(entries[i], now)) == imported;
    assert forall x :: x in Ids(existing) ==> x == "1";
    assert forall x :: x in Ids(imported) ==> x == "2";
    MergeDisjoint(existing, imported);
  }

  // ---------------------------------------------------------------- export

  const Version: string := "1.0"

  /** The object exportData and performAutoBackup hand to JSON.stringify. */
  datatype ExportDocument = ExportDocument(todos: seq<Todo>, isDarkMode: bool, autoBackupEnabled: bool,
                                           exportDate: string, version: string, autoBackup: Option<bool>)

  /** exportData's document: no `autoBackup` property. */
  function ManualExport(todos: seq<Todo>, isDarkMode: bool, autoBackupEnabled: bool, now: Timestamp): (d: ExportDocument)
    ensures d.todos == todos && d.isDarkMode == isDarkMode && d.autoBackupEnabled == autoBackupEnabled
    ensures d.version == Version && d.exportDate == now && d.autoBackup.None?
  {
    ExportDocument(todos, isDarkMode, autoBackupEnabled, now, Version, None)
  }

  /** performAutoBackup's document, written only when auto-backup is on and there are records. */
  function AutoBackup(todos: seq<Todo>, isDarkMode: bool, autoBackupEnabled: bool, now: Timestamp): (d: Option<ExportDocument>)
    ensures d.Some? <==> autoBackupEnabled && todos != []
    ensures d.Some? ==> d.value.todos == todos && d.value.isDarkMode == isDarkMode
                        && d.value.autoBackupEnabled == autoBackupEnabled
                        && d.value.version == Version && d.value.exportDate == now
                        && d.value.autoBackup == Some(true)
  {
    if !autoBackupEnabled || |todos| == 0 then None
    else Some(ExportDocument(todos, isDarkMode, autoBackupEnabled, now, Version, Some(true)))
  }

  /** How a stringified record reads back: every property present. */
  function AsEntry(t: Todo): Entry {
    Record(Some(t.id), Some(t.text), Some(t.memo), Some(t.time), Some(t.completed), Some(t.createdAt))
  }

  /** How the importer sees JSON.parse(JSON.stringify(d)); `exportDate`, `version` and `autoBackup` are ignored. */
  function Reread(d: ExportDocument): Document {
    Object(Some(Array(seq(|d.todos|, i requires 0 <= i < |d.todos| => AsEntry(d.todos[i])))),
           Some(d.isDarkMode), Some(d.autoBackupEnabled))
  }

  /** Importing a backup of well-formed records gives back exactly those records and settings. */
  lemma ExportImportRoundTrip(d: ExportDocument, now: Timestamp)
    requires AllWellFormed(d.todos)
    ensures Parse(Reread(d), now) == Ok(Parsed(d.todos, Some(d.isDarkMode), Some(d.autoBackupEnabled)))
  {
    var es := seq(|d.todos|, i requires 0 <= i < |d.todos| => AsEntry(d.todos[i]));
    assert forall i :: 0 <= i < |es| ==> Acceptable(es[i]);
    var filled := seq(|es|, i requires 0 <= i < |es| => BackFill(es[i], now));
    assert filled == d.todos;
  }

  /** Merging a backup of the current records back in changes nothing. */
  lemma ReimportOwnBackupMerges(d: ExportDocument, now: Timestamp)
    requires AllWellFormed(d.todos)
    ensures Parse(Reread(d), now).Ok?
    ensures Merge(d.todos, Parse(Reread(d), now).value.todos) == d.todos
  {
    ExportImportRoundTrip(d, now);
    MergeSelf(d.todos);
  }
}
