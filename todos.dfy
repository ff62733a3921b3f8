/**
 * The todo record of TodoApp and the pure list operations its methods apply to `this.todos`:
 * finding the first record with an id (Array.prototype.find), flipping `completed`,
 * replacing the edited fields, filtering records out by id, and counting completed records.
 */
module Todos {
  import opened Wrappers

  /** A reading of `new Date().toISOString()`: never the empty string. */
  type Timestamp = s: string | |s| > 0 witness "1970-01-01T00:00:00.000Z"

  datatype Todo = Todo(id: string, text: string, memo: string, time: string, completed: bool, createdAt: string)

  /** What every record the app holds satisfies: a non-empty id, text and creation stamp. */
  predicate WellFormed(t: Todo) {
    t.id != "" && t.text != "" && t.createdAt != ""
  }

  predicate AllWellFormed(s: seq<Todo>) {
    forall i :: 0 <= i < |s| ==> WellFormed(s[i])
  }

  /** The ids present in `s`. */
  function Ids(s: seq<Todo>): set<string> {
    set i | 0 <= i < |s| :: s[i].id
  }

  /** The position of the record `s.find(t => t.id === id)` returns, if any. */
  function FirstIndex(s: seq<Todo>, id: string): (r: Option<nat>)
    ensures r.Some? ==> r.value < |s| && s[r.value].id == id
                        && forall j :: 0 <= j < r.value ==> s[j].id != id
    ensures r.None? <==> id !in Ids(s)
  {
    if s == [] then None
    else if s[0].id == id then Some(0)
    else match FirstIndex(s[1..], id) {
      case None =>
        assert Ids(s) == {s[0].id} + Ids(s[1..]) by {
          assert forall i :: 0 < i < |s| ==> s[i].id == s[1..][i - 1].id;
        }
        None
      case Some(k) => Some(k + 1)
    }
  }

  /** FirstIndex looks only at ids. */
  lemma {:induction false} FirstIndexSameIds(s: seq<Todo>, t: seq<Todo>, id: string)
    requires |s| == |t| && forall i :: 0 <= i < |s| ==> s[i].id == t[i].id
    ensures FirstIndex(s, id) == FirstIndex(t, id)
  {
    if s != [] && s[0].id != id {
      FirstIndexSameIds(s[1..], t[1..], id);
    }
  }

  // ---------------------------------------------------------------- toggleTodo

  /** `this.todos` after toggleTodo(id): the first record with `id` has `completed` flipped. */
  function Toggled(s: seq<Todo>, id: string): (r: seq<Todo>)
    ensures |r| == |s|
    ensures forall i :: 0 <= i < |s| ==> r[i].id == s[i].id
    ensures match FirstIndex(s, id)
      case None => r == s
      case Some(i) =>
        && r[i] == s[i].(completed := !s[i].completed)
        && forall j :: 0 <= j < |s| && j != i ==> r[j] == s[j]
  {
    match FirstIndex(s, id)
    case None => s
    case Some(i) => s[i := s[i].(completed := !s[i].completed)]
  }

  /** Toggling the same id twice gives the list back. */
  lemma ToggledTwice(s: seq<Todo>, id: string)
    ensures Toggled(Toggled(s, id), id) == s
  {
    FirstIndexSameIds(s, Toggled(s, id), id);
  }

  // ---------------------------------------------------------------- saveEdit

  /** `this.todos` after a successful saveEdit(id): the first record with `id` gets the new fields. */
  function Edited(s: seq<Todo>, id: string, text: string, memo: string, time: string): (r: seq<Todo>)
    ensures |r| == |s|
    ensures forall i :: 0 <= i < |s| ==> r[i].id == s[i].id
    ensures match FirstIndex(s, id)
      case None => r == s
      case Some(i) =>
        && r[i] == Todo(s[i].id, text, memo, time, s[i].completed, s[i].createdAt)
        && forall j :: 0 <= j < |s| && j != i ==> r[j] == s[j]
  {
    match FirstIndex(s, id)
    case None => s
    case Some(i) => s[i := s[i].(text := text, memo := memo, time := time)]
  }

  // ---------------------------------------------------------------- filtering by id

  /** `s.filter(t => !ids.has(t.id))`: the records whose id is not in `ids`, in their order. */
  function Exclude(s: seq<Todo>, ids: set<string>): (r: seq<Todo>)
    ensures |r| <= |s|
    ensures forall t :: t in r <==> t in s && t.id !in ids
  {
    if s == [] then []
    else
      assert forall t :: t in s <==> t == s[0] || t in s[1..];
      (if s[0].id in ids then [] else [s[0]]) + Exclude(s[1..], ids)
  }

  /** Filtering distributes over concatenation: the kept records stay in their relative order. */
  lemma {:induction false} ExcludeAppend(a: seq<Todo>, b: seq<Todo>, ids: set<string>)
    ensures Exclude(a + b, ids) == Exclude(a, ids) + Exclude(b, ids)
  {
    if a == [] {
      assert a + b == b;
    } else {
      assert (a + b)[0] == a[0] && (a + b)[1..] == a[1..] + b;
      ExcludeAppend(a[1..], b, ids);
    }
  }

  /** Nothing is dropped when no id is excluded. */
  lemma {:induction false} ExcludeDisjoint(s: seq<Todo>, ids: set<string>)
    requires Ids(s) !! ids
    ensures Exclude(s, ids) == s
  {
    if s != [] {
      assert s[0].id in Ids(s);
      assert Ids(s[1..]) <= Ids(s) by {
        forall x | x in Ids(s[1..]) ensures x in Ids(s) {
          var i :| 0 <= i < |s[1..]| && s[1..][i].id == x;
          assert s[i + 1].id == x;
        }
      }
      ExcludeDisjoint(s[1..], ids);
      assert [s[0]] + s[1..] == s;
    }
  }

  /** Excluding every id of `s` leaves nothing. */
  lemma ExcludeOwnIds(s: seq<Todo>, ids: set<string>)
    requires Ids(s) <= ids
    ensures Exclude(s, ids) == []
  {
  }

  /** Excluding an id that no record carries leaves the list as it is. */
  lemma ExcludeAbsent(s: seq<Todo>, id: string)
    requires id !in Ids(s)
    ensures Exclude(s, {id}) == s
  {
    ExcludeDisjoint(s, {id});
  }

  // ---------------------------------------------------------------- counting

  /** `s.filter(t => t.completed).length`. */
  function CountCompleted(s: seq<Todo>): (n: nat)
    ensures n <= |s|
    ensures n == 0 <==> forall i :: 0 <= i < |s| ==> !s[i].completed
    ensures n == |s| <==> forall i :: 0 <= i < |s| ==> s[i].completed
  {
    if s == [] then 0
    else
      assert forall i :: 0 < i < |s| ==> s[i] == s[1..][i - 1];
      (if s[0].completed then 1 else 0) + CountCompleted(s[1..])
  }

  /** Replacing one record changes the count by what the old and the new record contribute. */
  lemma {:induction false} CountCompletedUpdate(s: seq<Todo>, i: nat, x: Todo)
    requires i < |s|
    ensures CountCompleted(s[i := x]) + (if s[i].completed then 1 else 0)
         == CountCompleted(s) + (if x.completed then 1 else 0)
  {
    if i == 0 {
      assert s[i := x][1..] == s[1..];
    } else {
      assert s[i := x][1..] == s[1..][i - 1 := x];
      CountCompletedUpdate(s[1..], i - 1, x);
    }
  }

  /** Counting distributes over concatenation. */
  lemma {:induction false} CountCompletedAppend(a: seq<Todo>, b: seq<Todo>)
    ensures CountCompleted(a + b) == CountCompleted(a) + CountCompleted(b)
  {
    if a == [] {
      assert a + b == b;
    } else {
      assert (a + b)[1..] == a[1..] + b;
      CountCompletedAppend(a[1..], b);
    }
  }

  /** Toggling one found record moves the completed count by exactly one. */
  lemma ToggledCount(s: seq<Todo>, id: string)
    requires id in Ids(s)
    ensures var i := FirstIndex(s, id).value;
      CountCompleted(Toggled(s, id)) == if s[i].completed then CountCompleted(s) - 1 else CountCompleted(s) + 1
  {
    var i := FirstIndex(s, id).value;
    CountCompletedUpdate(s, i, s[i].(completed := !s[i].completed));
  }
}
