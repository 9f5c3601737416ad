/** The client-side todo store: two ordered lists of todo records, `todos` and
    `exploreTodos`, and the four operations that overwrite them (fetch, update,
    append to the explore list, delete). The server round trips are replaced by
    an outcome passed in by the caller; what is verified is the state change
    each outcome causes. */
module TodoContext {

  /** A todo (used by the application as a contact). `id` is the server-assigned `_id`. */
  datatype Todo = Todo(id: string, title: string, description: string)

  /** What the server answered to `GET /api/todos`. */
  datatype FetchOutcome = Fetched(data: seq<Todo>) | FetchFailed

  /** What the server answered to `DELETE /api/todos/:id`. */
  datatype DeleteOutcome = Deleted | DeleteFailed

  // ---------------------------------------------------------------------------
  // Reference notions used to state the properties
  // ---------------------------------------------------------------------------

  /** Some entry of `s` carries the identifier `id`. */
  predicate HasId(s: seq<Todo>, id: string)
  {
    exists k :: 0 <= k < |s| && s[k].id == id
  }

  /** `a` is obtained from `b` by dropping some entries, keeping the others in order. */
  predicate IsSubsequence(a: seq<Todo>, b: seq<Todo>)
    decreases |b|
  {
    if a == [] then true
    else if b == [] then false
    else (a[0] == b[0] && IsSubsequence(a[1..], b[1..])) || IsSubsequence(a, b[1..])
  }

  // ---------------------------------------------------------------------------
  // The transforms inside the setters
  // ---------------------------------------------------------------------------

  /** The map applied by `updateTodo`: each entry whose id is `updated.id` is
      swapped for `updated`, the rest are kept, positions do not move. */
  function ReplaceById(s: seq<Todo>, updated: Todo): (r: seq<Todo>)
    ensures |r| == |s|
  {
    if s == [] then []
    else [if s[0].id == updated.id then updated else s[0]] + ReplaceById(s[1..], updated)
  }

  /** The filter applied by `deleteTodo` to each list: keeps, in order, the
      entries whose id differs from `id`. */
  function RemoveById(s: seq<Todo>, id: string): (r: seq<Todo>)
    ensures |r| <= |s|
  {
    if s == [] then []
    else (if s[0].id == id then [] else [s[0]]) + RemoveById(s[1..], id)
  }

  // ---------------------------------------------------------------------------
  // Properties of ReplaceById
  // ---------------------------------------------------------------------------

  /** Every position whose id matches becomes `updated` (all matches, not only
      the first); every other position keeps its entry. */
  lemma {:induction false} ReplaceByIdAt(s: seq<Todo>, updated: Todo)
    ensures |ReplaceById(s, updated)| == |s|
    ensures forall k :: 0 <= k < |s| ==>
              ReplaceById(s, updated)[k] == (if s[k].id == updated.id then updated else s[k])
  {
    if s != [] {
      ReplaceByIdAt(s[1..], updated);
      var r := ReplaceById(s, updated);
      forall k | 1 <= k < |s|
        ensures r[k] == (if s[k].id == updated.id then updated else s[k])
      {
        assert r[k] == ReplaceById(s[1..], updated)[k - 1];
        assert s[1..][k - 1] == s[k];
      }
    }
  }

  /** Applying the same update twice gives what applying it once gives. */
  lemma {:induction false} ReplaceByIdIdempotent(s: seq<Todo>, updated: Todo)
    ensures ReplaceById(ReplaceById(s, updated), updated) == ReplaceById(s, updated)
  {
    if s != [] {
      var r := ReplaceById(s, updated);
      ReplaceByIdIdempotent(s[1..], updated);
      assert r[1..] == ReplaceById(s[1..], updated);
    }
  }

  /** An update whose id occurs nowhere in the list leaves it as it was. */
  lemma {:induction false} ReplaceByIdAbsent(s: seq<Todo>, updated: Todo)
    requires !HasId(s, updated.id)
    ensures ReplaceById(s, updated) == s
  {
    if s != [] {
      assert s[0].id != updated.id;
      assert !HasId(s[1..], updated.id) by {
        forall k | 0 <= k < |s[1..]| ensures s[1..][k].id != updated.id {
          assert s[1..][k] == s[k + 1];
        }
      }
      ReplaceByIdAbsent(s[1..], updated);
      assert s == [s[0]] + s[1..];
    }
  }

  // ---------------------------------------------------------------------------
  // Properties of RemoveById
  // ---------------------------------------------------------------------------

  /** No entry carrying `id` survives the filter. */
  lemma {:induction false} RemoveByIdNoMatch(s: seq<Todo>, id: string)
    ensures !HasId(RemoveById(s, id), id)
  {
    if s != [] {
      RemoveByIdNoMatch(s[1..], id);
      var head: seq<Todo> := if s[0].id == id then [] else [s[0]];
      var tail := RemoveById(s[1..], id);
      assert RemoveById(s, id) == head + tail;
      forall k | 0 <= k < |head + tail| ensures (head + tail)[k].id != id {
        if k >= |head| {
          assert (head + tail)[k] == tail[k - |head|];
        }
      }
    }
  }

  /** The survivors keep their relative order: the result is a subsequence of the input. */
  lemma {:induction false} RemoveByIdSubsequence(s: seq<Todo>, id: string)
    ensures IsSubsequence(RemoveById(s, id), s)
  {
    if s != [] {
      var r := RemoveById(s, id);
      RemoveByIdSubsequence(s[1..], id);
      if s[0].id == id {
        assert r == RemoveById(s[1..], id);
        if r != [] {
          assert IsSubsequence(r, s[1..]);
        }
      } else {
        assert r[0] == s[0] && r[1..] == RemoveById(s[1..], id);
      }
    }
  }

  /** The filter drops every copy of an entry carrying `id` and keeps every copy of
      every other entry: with the subsequence property, this pins the result down. */
  lemma {:induction false} RemoveByIdCounts(s: seq<Todo>, id: string)
    ensures forall t :: multiset(RemoveById(s, id))[t] == (if t.id == id then 0 else multiset(s)[t])
  {
    if s != [] {
      RemoveByIdCounts(s[1..], id);
      var head: seq<Todo> := if s[0].id == id then [] else [s[0]];
      assert RemoveById(s, id) == head + RemoveById(s[1..], id);
      assert s == [s[0]] + s[1..];
      assert multiset(s) == multiset([s[0]]) + multiset(s[1..]);
    }
  }

  /** Deleting an id that occurs nowhere in the list leaves it as it was. */
  lemma {:induction false} RemoveByIdAbsent(s: seq<Todo>, id: string)
    requires !HasId(s, id)
    ensures RemoveById(s, id) == s
  {
    if s != [] {
      assert s[0].id != id;
      assert !HasId(s[1..], id) by {
        forall k | 0 <= k < |s[1..]| ensures s[1..][k].id != id {
          assert s[1..][k] == s[k + 1];
        }
      }
      RemoveByIdAbsent(s[1..], id);
      assert s == [s[0]] + s[1..];
    }
  }

  // ---------------------------------------------------------------------------
  // The store
  // ---------------------------------------------------------------------------

  /** The two state slots of the provider and the operations that overwrite them. */
  class TodoStore {
    var todos: seq<Todo>
    var exploreTodos: seq<Todo>

    /** Both lists start empty. */
    constructor ()
      ensures todos == [] && exploreTodos == []
    {
      todos := [];
      exploreTodos := [];
    }

    /** On success both lists become the server collection, in server order;
        on failure (only logged) nothing changes. */
    method FetchTodos(outcome: FetchOutcome)
      modifies this
      ensures outcome.Fetched? ==> todos == outcome.data && exploreTodos == outcome.data
      ensures outcome.FetchFailed? ==> todos == old(todos) && exploreTodos == old(exploreTodos)
    {
      match outcome
      case Fetched(data) =>
        todos := data;
        exploreTodos := data;
      case FetchFailed =>
    }

    /** Replaces, in `todos` only, every entry whose id is `updated.id`. */
    method UpdateTodo(updated: Todo)
      modifies this`todos
      ensures todos == ReplaceById(old(todos), updated)
      ensures |todos| == |old(todos)|
      ensures forall k :: 0 <= k < |todos| ==>
                todos[k] == (if old(todos)[k].id == updated.id then updated else old(todos)[k])
      ensures !HasId(old(todos), updated.id) ==> todos == old(todos)
      ensures exploreTodos == old(exploreTodos)
    {
      ReplaceByIdAt(todos, updated);
      if !HasId(todos, updated.id) {
        ReplaceByIdAbsent(todos, updated);
      }
      todos := ReplaceById(todos, updated);
    }

    /** Appends to `exploreTodos`, whether or not its id is already there. */
    method AddToExplore(todo: Todo)
      modifies this`exploreTodos
      ensures exploreTodos == old(exploreTodos) + [todo]
      ensures |exploreTodos| == |old(exploreTodos)| + 1 && exploreTodos[|exploreTodos| - 1] == todo
      ensures todos == old(todos)
    {
      exploreTodos := exploreTodos + [todo];
    }

    /** When the server confirmed the delete, drops every entry carrying `id` from
        both lists, the others keeping their order; when it failed, nothing changes. */
    method DeleteTodo(id: string, outcome: DeleteOutcome)
      modifies this
      ensures outcome.Deleted? ==>
                todos == RemoveById(old(todos), id) && exploreTodos == RemoveById(old(exploreTodos), id)
      ensures outcome.Deleted? ==> !HasId(todos, id) && !HasId(exploreTodos, id)
      ensures outcome.Deleted? ==>
                IsSubsequence(todos, old(todos)) && IsSubsequence(exploreTodos, old(exploreTodos))
      ensures outcome.Deleted? && !HasId(old(todos), id) ==> todos == old(todos)
      ensures outcome.Deleted? && !HasId(old(exploreTodos), id) ==> exploreTodos == old(exploreTodos)
      ensures outcome.DeleteFailed? ==> todos == old(todos) && exploreTodos == old(exploreTodos)
    {
      if outcome.Deleted? {
        if !HasId(todos, id) {
          RemoveByIdAbsent(todos, id);
        }
        if !HasId(exploreTodos, id) {
          RemoveByIdAbsent(exploreTodos, id);
        }
        RemoveByIdNoMatch(todos, id);
        RemoveByIdSubsequence(todos, id);
        RemoveByIdNoMatch(exploreTodos, id);
        RemoveByIdSubsequence(exploreTodos, id);
        todos := RemoveById(todos, id);
        exploreTodos := RemoveById(exploreTodos, id);
      }
    }
  }

  // ---------------------------------------------------------------------------
  // The edit flow as the detail screen drives it
  // ---------------------------------------------------------------------------

  /** After the store's `fetchTodos` returned a one-record collection, the detail
      screen's save calls `updateTodo` and then `addToExplore` with the
      server-confirmed record. `todos` then holds the new record alone, while
      `exploreTodos` still holds the stale record and gains the new one behind it:
      two entries with the same id. */
  method EditAfterFetch(stale: Todo, edited: Todo) returns (todos: seq<Todo>, exploreTodos: seq<Todo>)
    requires stale.id == edited.id
    ensures todos == [edited]
    ensures exploreTodos == [stale, edited]
  {
    var store := new TodoStore();
    store.FetchTodos(Fetched([stale]));
    store.UpdateTodo(edited);
    store.AddToExplore(edited);
    todos, exploreTodos := store.todos, store.exploreTodos;
  }
}
