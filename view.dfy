/**
 * The projection updateUI draws: renderTodoList and createTodoItem (one row per record, which
 * row is in edit mode, which optional parts appear), updateStats (the three counters) and
 * the `this.todos.length === 0` check of renderTodoList and toggleEmptyState that decides the
 * empty-list placeholder. HTML and DOM updates are not modelled.
 */
module View {
  import opened Wrappers
  import opened Todos
  import opened TimeFormat

  /** What createTodoItem decides for one record. */
  datatype RowView = RowView(id: string, text: string, memo: string, completed: bool, editing: bool,
                             showMemo: bool, showTime: bool, timeLabel: string)

  /** The rows, the three counters and the empty-list check (`listEmpty`). */
  datatype ViewModel = ViewModel(rows: seq<RowView>, total: nat, completed: nat, pending: int, listEmpty: bool)

  /** `this.editingId === todo.id`. */
  predicate IsEditing(editingId: Option<string>, t: Todo) {
    editingId == Some(t.id)
  }

  /**
   * createTodoItem: the memo part appears when there is a memo or the row is edited, the time part
   * likewise; outside edit mode the time is shown through formatTime.
   */
  function Row(t: Todo, editingId: Option<string>): (r: RowView)
    ensures r.id == t.id && r.text == t.text && r.memo == t.memo && r.completed == t.completed
    ensures r.editing <==> editingId == Some(t.id)
    ensures r.showMemo <==> t.memo != "" || r.editing
    ensures r.showTime <==> t.time != "" || r.editing
    ensures r.timeLabel == "" <==> t.time == "" || r.editing
    ensures !r.editing ==> r.timeLabel == FormatTime(t.time)
  {
    var editing := IsEditing(editingId, t);
    RowView(t.id, t.text, t.memo, t.completed, editing, t.memo != "" || editing, t.time != "" || editing,
            if t.time != "" && !editing then FormatTime(t.time) else "")
  }

  /** updateUI as one function of the records and the edit cursor. */
  function Project(todos: seq<Todo>, editingId: Option<string>): (v: ViewModel)
    ensures |v.rows| == v.total == |todos|
    ensures v.completed == CountCompleted(todos) && 0 <= v.pending == v.total - v.completed
    ensures v.listEmpty <==> v.total == 0
    ensures forall i :: 0 <= i < |todos| ==> v.rows[i] == Row(todos[i], editingId)
    ensures forall i :: 0 <= i < |todos| ==> v.rows[i].id == todos[i].id && v.rows[i].completed == todos[i].completed
    ensures forall i :: 0 <= i < |todos| ==> (v.rows[i].editing <==> editingId == Some(todos[i].id))
  {
    var total := |todos|;
    var completed := CountCompleted(todos);
    ViewModel(seq(|todos|, i requires 0 <= i < |todos| => Row(todos[i], editingId)),
              total, completed, total - completed, total == 0)
  }

  /** When ids are distinct, at most one row is in edit mode. */
  lemma AtMostOneEditing(todos: seq<Todo>, editingId: Option<string>, i: nat, j: nat)
    requires forall a, b :: 0 <= a < b < |todos| ==> todos[a].id != todos[b].id
    requires i < |todos| && j < |todos|
    requires Project(todos, editingId).rows[i].editing && Project(todos, editingId).rows[j].editing
    ensures i == j
  {
  }

  /** The rows of a list with one record in front: that record's row, then the rows of the rest. */
  lemma RowsInFront(t: Todo, todos: seq<Todo>, editingId: Option<string>)
    ensures Project([t] + todos, editingId).rows == [Row(t, editingId)] + Project(todos, editingId).rows
  {
    var s := [t] + todos;
    var v := Project(s, editingId).rows;
    var w := [Row(t, editingId)] + Project(todos, editingId).rows;
    assert |v| == |w|;
    forall i | 0 <= i < |v| ensures v[i] == w[i] {
      if i > 0 {
        assert s[i] == todos[i - 1];
      }
    }
  }

  /** Adding an open record in front adds one row in front, one to the total and one to the pending count. */
  lemma AddedInFront(t: Todo, todos: seq<Todo>, editingId: Option<string>)
    requires !t.completed
    ensures var v := Project([t] + todos, editingId); var w := Project(todos, editingId);
      && v.rows == [Row(t, editingId)] + w.rows
      && v.total == w.total + 1 && v.completed == w.completed && v.pending == w.pending + 1
      && !v.listEmpty
  {
    RowsInFront(t, todos, editingId);
    CountCompletedAppend([t], todos);
    assert CountCompleted([t]) == 0;
  }

  /** After deleting the record under the cursor, no row is in edit mode, although the cursor stays. */
  lemma DeletedRowNotEditing(todos: seq<Todo>, id: string)
    ensures var v := Project(Exclude(todos, {id}), Some(id));
      forall i :: 0 <= i < |v.rows| ==> !v.rows[i].editing
  {
    var rest := Exclude(todos, {id});
    forall i | 0 <= i < |rest| ensures rest[i].id != id {
      assert rest[i] in rest;
    }
  }

  /** After a saved edit, the edited record's row shows the new text, memo and time under the same id. */
  lemma EditedRowShowsNewFields(todos: seq<Todo>, id: string, text: string, memo: string, time: string, editingId: Option<string>)
    requires id in Ids(todos)
    ensures var i := FirstIndex(todos, id).value; var row := Project(Edited(todos, id, text, memo, time), editingId).rows[i];
      && row.id == id && row.text == text && row.memo == memo && row.completed == todos[i].completed
      && (!row.editing ==> row.timeLabel == FormatTime(time))
  {
  }
}
