/** The store of the board's tasks and columns (class `YjsStore`).

    The shared Yjs types are modelled as what a single replica sees of them:
    the `board` map of metadata, the `columns` array and the `tasks` map,
    each a plain value that the store's methods replace, and each
    `transact` is one atomic step. The conflict-free merge, the persistence
    and transport providers and the observers that Yjs calls back are not
    part of this model. */
module Store {
  import opened Records

  /** A registered listener, by identity (JavaScript compares functions by reference). */
  type Listener = nat

  /** The `tasks` map: task id to task record. */
  type TaskMap = map<Value, Record>

  /** The function `subscribe` hands back; calling it removes `listener`. */
  datatype Canceller = Canceller(listener: Listener)

  /** The `type` of a change passed to the listeners. */
  datatype ChangeKind = ColumnsChanged | TasksChanged | BoardChanged

  /** One invocation of a listener with a change. */
  datatype Call = Call(listener: Listener, change: ChangeKind)

  /** `TaskNeedsIdAndColumn` is the error `addTask` throws on purpose; `NoDocument`
      is the TypeError a method throws when it runs before `initialize` created the document. */
  datatype StoreError = TaskNeedsIdAndColumn | NoDocument

  datatype Outcome = Done | Failed(error: StoreError)

  /** What the local persistence hands back when it has synced: the state of
      the document saved for the room (all empty on a first start). */
  datatype Persisted = Persisted(board: map<string, Value>, columns: seq<Record>, tasks: TaskMap)

  /** The plain snapshot `getBoardState` returns. */
  datatype BoardState = BoardState(title: Value, createdAt: Value, columns: seq<Record>, tasks: TaskMap)

  const DefaultRoom: string := "kanban-default-room"
  const DefaultTitle: string := "My Kanban Board"

  function ColumnRecord(id: string, title: string, color: string): Record
  {
    map["id" := Str(id), "title" := Str(title), "color" := Str(color)]
  }

  /** The three columns a new board starts with, in display order. */
  function DefaultColumns(): seq<Record>
  {
    [ ColumnRecord("todo", "To Do", "#6366f1"),
      ColumnRecord("in-progress", "In Progress", "#8b5cf6"),
      ColumnRecord("done", "Done", "#10b981") ]
  }

  /** The metadata of a new board created at time `now`. */
  function DefaultMetadata(board: map<string, Value>, now: int): (r: map<string, Value>)
    ensures r.Keys == board.Keys + {"title", "createdAt"}
    ensures r["title"] == Str(DefaultTitle) && r["createdAt"] == Num(now)
    ensures forall k | k in board && k != "title" && k != "createdAt" :: r[k] == board[k]
  {
    board["title" := Str(DefaultTitle)]["createdAt" := Num(now)]
  }

  /** The check `addTask` makes before writing: both `id` and `columnId` are truthy. */
  predicate HasIdAndColumn(task: Record)
  {
    Truthy(Get(task, "id")) && Truthy(ColumnOf(task))
  }

  /** `yTasks.set(task.id, task)`: a task is stored under its id, replacing
      any earlier entry with that id; no other entry changes. */
  function Added(tasks: TaskMap, task: Record): (r: TaskMap)
    ensures Get(task, "id") in r && r[Get(task, "id")] == task
    ensures r.Keys == tasks.Keys + {Get(task, "id")}
    ensures forall k | k in tasks && k != Get(task, "id") :: r[k] == tasks[k]
  {
    tasks[Get(task, "id") := task]
  }

  /** `updateTask(id, updates)`: an absent id changes nothing; a present one
      keeps its key and gets its record overlaid by `updates`. */
  function Updated(tasks: TaskMap, id: Value, updates: Record): (r: TaskMap)
    ensures r.Keys == tasks.Keys
    ensures id !in tasks ==> r == tasks
    ensures forall k | k in tasks && k != id :: r[k] == tasks[k]
    ensures id in tasks ==>
      forall f :: Get(r[id], f) == (if f in updates then updates[f] else Get(tasks[id], f))
  {
    if id in tasks then tasks[id := Overlay(tasks[id], updates)] else tasks
  }

  /** `yTasks.delete(id)`: exactly that key goes; the others keep their records. */
  function Deleted(tasks: TaskMap, id: Value): (r: TaskMap)
    ensures r.Keys == tasks.Keys - {id}
    ensures forall k | k in r :: r[k] == tasks[k]
  {
    tasks - {id}
  }

  /** The update `moveTask` passes on: `{ columnId: newColumnId }`. */
  function ColumnPatch(columnId: Value): Record
  {
    map["columnId" := columnId]
  }

  /** `getTasksByColumn(columnId)`: the stored tasks whose `columnId` is
      strictly equal to `columnId`, each under its own key. */
  function TasksInColumn(tasks: TaskMap, columnId: Value): (r: TaskMap)
    ensures forall k :: k in r <==> k in tasks && ColumnOf(tasks[k]) == columnId
    ensures forall k | k in r :: r[k] == tasks[k]
  {
    map k | k in tasks && ColumnOf(tasks[k]) == columnId :: tasks[k]
  }

  /** `listeners.delete(l)` on the ordered set of listeners. */
  function Without(listeners: seq<Listener>, l: Listener): (r: seq<Listener>)
    ensures forall x :: x in r <==> x in listeners && x != l
    ensures Distinct(listeners) ==> Distinct(r)
    ensures l !in listeners ==> r == listeners
  {
    if listeners == [] then []
    else if listeners[0] == l then Without(listeners[1..], l)
    else
      var rest := Without(listeners[1..], l);
      DistinctTail(listeners);
      [listeners[0]] + rest
  }

  /** Dropping the head of a list without repetitions leaves one without the head. */
  lemma DistinctTail<T>(s: seq<T>)
    requires s != []
    ensures Distinct(s) ==> Distinct(s[1..]) && s[0] !in s[1..]
  {
  }

  /** Removing a listener keeps the others in their order: it works piece by
      piece, and on one listener it drops exactly that listener. */
  lemma {:induction false} WithoutAppend(a: seq<Listener>, b: seq<Listener>, l: Listener)
    ensures Without(a + b, l) == Without(a, l) + Without(b, l)
  {
    if a == [] {
      assert a + b == b;
    } else {
      assert (a + b)[0] == a[0];
      assert (a + b)[1..] == a[1..] + b;
      WithoutAppend(a[1..], b, l);
    }
  }

  lemma WithoutSingle(x: Listener, l: Listener)
    ensures Without([x], l) == if x == l then [] else [x]
  {
    assert [x][1..] == [];
  }

  /** The listeners among `listeners`, in order, that throw when called. */
  function Throwing(listeners: seq<Listener>, throws: set<Listener>): seq<Listener>
  {
    if listeners == [] then []
    else (if listeners[0] in throws then [listeners[0]] else []) + Throwing(listeners[1..], throws)
  }

  // ---- Properties of the operations on tasks -------------------------------------------------

  /** `moveTask(id, c)` changes the `columnId` of task `id` to `c` and nothing else. */
  lemma MoveChangesOnlyColumn(tasks: TaskMap, id: Value, c: Value)
    requires id in tasks
    ensures var r := Updated(tasks, id, ColumnPatch(c));
      && r.Keys == tasks.Keys
      && ColumnOf(r[id]) == c
      && (forall f | f != "columnId" :: Get(r[id], f) == Get(tasks[id], f))
      && (forall k | k in tasks && k != id :: r[k] == tasks[k])
  {
  }

  /** After `moveTask(id, c)` that task shows up in column `c` and in no other
      column; the column of every other task is as before. */
  lemma MoveRehomesTask(tasks: TaskMap, id: Value, c: Value, d: Value)
    requires id in tasks
    ensures var after := TasksInColumn(Updated(tasks, id, ColumnPatch(c)), d);
      && (id in after <==> d == c)
      && (forall k | k != id :: k in after <==> k in TasksInColumn(tasks, d))
  {
    MoveChangesOnlyColumn(tasks, id, c);
  }

  /** Repeating an update is a no-op. */
  lemma UpdateIdempotent(tasks: TaskMap, id: Value, updates: Record)
    ensures Updated(Updated(tasks, id, updates), id, updates) == Updated(tasks, id, updates)
  {
    if id in tasks {
      OverlayIdempotent(tasks[id], updates);
    }
  }

  /** Deleting a task that was just added under a fresh id restores the map. */
  lemma AddThenDeleteRestores(tasks: TaskMap, task: Record)
    requires Get(task, "id") !in tasks
    ensures Deleted(Added(tasks, task), Get(task, "id")) == tasks
  {
  }

  /** A task lies in at most one column view. */
  lemma ColumnViewsAreDisjoint(tasks: TaskMap, c: Value, d: Value)
    requires c != d
    ensures TasksInColumn(tasks, c).Keys !! TasksInColumn(tasks, d).Keys
  {
  }

  /** Cancelling a listener right after subscribing it, when it was not yet
      registered, gives back the listener list from before. */
  lemma {:induction false} SubscribeThenCancelRestores(listeners: seq<Listener>, l: Listener)
    requires l !in listeners
    ensures Without(listeners + [l], l) == listeners
  {
    if listeners != [] {
      assert (listeners + [l])[1..] == listeners[1..] + [l];
      SubscribeThenCancelRestores(listeners[1..], l);
    }
  }

  // ---- The store -------------------------------------------------------------------------

  class YjsStore {
    /** `ydoc != null`: `initialize` has created the document at least once. */
    var hasDoc: bool
    var roomName: Option<string>
    /** The `board` map: title and creation time. */
    var board: map<string, Value>
    /** The `columns` array. */
    var columns: seq<Record>
    /** The `tasks` map. */
    var tasks: TaskMap
    /** The listener set, in insertion order (JavaScript sets iterate in that order). */
    var listeners: seq<Listener>
    var isInitialized: bool

    ghost predicate Valid()
      reads this
    {
      Distinct(listeners) && (isInitialized ==> hasDoc)
    }

    constructor ()
      ensures Valid()
      ensures !hasDoc && !isInitialized && roomName == None
      ensures listeners == [] && board == map[] && columns == [] && tasks == map[]
    {
      hasDoc := false;
      roomName := None;
      board, columns, tasks := map[], [], map[];
      listeners := [];
      isInitialized := false;
    }

    /** `initialize(roomName)`: a second call is ignored. Otherwise a document is
        created and filled with what the local persistence held for the room;
        when that has no columns, the default board is created at time `now`. */
    method Initialize(stored: Persisted, now: int, room: string := DefaultRoom)
      requires Valid()
      modifies this
      ensures Valid()
      ensures listeners == old(listeners)
      ensures old(isInitialized) ==>
        && hasDoc == old(hasDoc) && roomName == old(roomName) && isInitialized
        && board == old(board) && columns == old(columns) && tasks == old(tasks)
      ensures !old(isInitialized) ==>
        && hasDoc && isInitialized && roomName == Some(room)
        && tasks == stored.tasks
        && (|stored.columns| == 0 ==> columns == DefaultColumns() && board == DefaultMetadata(stored.board, now))
        && (|stored.columns| != 0 ==> columns == stored.columns && board == stored.board)
    {
      if isInitialized {
        return;
      }
      roomName := Some(room);
      hasDoc := true;
      board, columns, tasks := stored.board, stored.columns, stored.tasks;
      if |columns| == 0 {
        var outcome := InitializeDefaultBoard(now);
      }
      isInitialized := true;
    }

    /** `initializeDefaultBoard()`: appends the default columns one by one and
        sets the title and the creation time, in one transaction. */
    method InitializeDefaultBoard(now: int) returns (outcome: Outcome)
      requires Valid()
      modifies this
      ensures Valid()
      ensures outcome == (if old(hasDoc) then Done else Failed(NoDocument))
      ensures outcome.Done? ==>
        columns == old(columns) + DefaultColumns() && board == DefaultMetadata(old(board), now)
      ensures outcome.Failed? ==> columns == old(columns) && board == old(board)
      ensures tasks == old(tasks) && listeners == old(listeners)
      ensures hasDoc == old(hasDoc) && isInitialized == old(isInitialized) && roomName == old(roomName)
    {
      if !hasDoc {
        return Failed(NoDocument);
      }
      var defaults := DefaultColumns();
      for i := 0 to |defaults|
        invariant columns == old(columns) + defaults[..i]
        invariant board == old(board) && tasks == old(tasks) && listeners == old(listeners)
        invariant hasDoc == old(hasDoc) && isInitialized == old(isInitialized) && roomName == old(roomName)
      {
        columns := columns + [defaults[i]];
      }
      board := board["title" := Str(DefaultTitle)];
      board := board["createdAt" := Num(now)];
      return Done;
    }

    /** `subscribe(listener)`: adds the listener (once) and returns its canceller. */
    method Subscribe(l: Listener) returns (cancel: Canceller)
      requires Valid()
      modifies this`listeners
      ensures Valid()
      ensures cancel.listener == l
      ensures l in listeners
      ensures listeners == if l in old(listeners) then old(listeners) else old(listeners) + [l]
    {
      if l !in listeners {
        listeners := listeners + [l];
      }
      cancel := Canceller(l);
    }

    /** Calling the canceller `subscribe` returned: removes exactly that listener. */
    method Unsubscribe(cancel: Canceller)
      requires Valid()
      modifies this`listeners
      ensures Valid()
      ensures cancel.listener !in listeners
      ensures forall x :: x in listeners <==> x in old(listeners) && x != cancel.listener
      ensures listeners == Without(old(listeners), cancel.listener)
    {
      listeners := Without(listeners, cancel.listener);
    }

    /** `notifyListeners(change)`: calls every registered listener with the change,
        in registration order; a listener in `throws` throws, the error is logged
        and the remaining listeners are still called. Returns the calls made and
        the listeners whose error was logged. */
    method NotifyListeners(change: ChangeKind, throws: set<Listener>) returns (calls: seq<Call>, logged: seq<Listener>)
      ensures |calls| == |listeners|
      ensures forall i | 0 <= i < |calls| :: calls[i] == Call(listeners[i], change)
      ensures logged == Throwing(listeners, throws)
    {
      calls, logged := [], [];
      for i := 0 to |listeners|
        invariant |calls| == i
        invariant forall j | 0 <= j < i :: calls[j] == Call(listeners[j], change)
        invariant logged == Throwing(listeners[..i], throws)
      {
        calls := calls + [Call(listeners[i], change)];
        if listeners[i] in throws {
          logged := logged + [listeners[i]];
        }
        ThrowingAppend(listeners[..i], listeners[i], throws);
        assert listeners[..i + 1] == listeners[..i] + [listeners[i]];
      }
      assert listeners[..|listeners|] == listeners;
    }

    /** `getBoardState()`: the title, creation time, columns and tasks as plain values. */
    function GetBoardState(): (r: Option<BoardState>)
      reads this
      ensures r.Some? <==> hasDoc
      ensures r.Some? ==>
        && r.value.title == (if "title" in board then board["title"] else Undefined)
        && r.value.createdAt == (if "createdAt" in board then board["createdAt"] else Undefined)
        && r.value.columns == columns && r.value.tasks == tasks
    {
      if hasDoc then Some(BoardState(Get(board, "title"), Get(board, "createdAt"), columns, tasks)) else None
    }

    /** `addTask(task)`: a task without a truthy `id` or `columnId` is refused with
        an error before anything else; otherwise it is stored under its id. */
    method AddTask(task: Record) returns (outcome: Outcome)
      requires Valid()
      modifies this`tasks
      ensures Valid()
      ensures outcome == Failed(TaskNeedsIdAndColumn) <==> !HasIdAndColumn(task)
      ensures outcome == Failed(NoDocument) <==> HasIdAndColumn(task) && !hasDoc
      ensures tasks == if outcome.Done? then Added(old(tasks), task) else old(tasks)
    {
      if !Truthy(Get(task, "id")) || !Truthy(Get(task, "columnId")) {
        return Failed(TaskNeedsIdAndColumn);
      }
      if !hasDoc {
        return Failed(NoDocument);
      }
      tasks := tasks[Get(task, "id") := task];
      return Done;
    }

    /** `updateTask(id, updates)`: a missing id is logged and nothing changes;
        a present one gets its record overlaid by `updates`. */
    method UpdateTask(id: Value, updates: Record) returns (outcome: Outcome)
      requires Valid()
      modifies this`tasks
      ensures Valid()
      ensures outcome == (if hasDoc then Done else Failed(NoDocument))
      ensures tasks == if outcome.Done? then Updated(old(tasks), id, updates) else old(tasks)
      ensures id !in old(tasks) ==> tasks == old(tasks)
    {
      if !hasDoc {
        return Failed(NoDocument);
      }
      if id !in tasks {
        return Done;
      }
      tasks := tasks[id := Overlay(tasks[id], updates)];
      return Done;
    }

    /** `deleteTask(id)`: removes that entry; an absent id changes nothing. */
    method DeleteTask(id: Value) returns (outcome: Outcome)
      requires Valid()
      modifies this`tasks
      ensures Valid()
      ensures outcome == (if hasDoc then Done else Failed(NoDocument))
      ensures tasks == if outcome.Done? then Deleted(old(tasks), id) else old(tasks)
      ensures id !in old(tasks) ==> tasks == old(tasks)
    {
      if !hasDoc {
        return Failed(NoDocument);
      }
      tasks := tasks - {id};
      return Done;
    }

    /** `moveTask(id, newColumnId)`: `updateTask(id, { columnId: newColumnId })`. */
    method MoveTask(id: Value, newColumnId: Value) returns (outcome: Outcome)
      requires Valid()
      modifies this`tasks
      ensures Valid()
      ensures outcome == (if hasDoc then Done else Failed(NoDocument))
      ensures tasks == if outcome.Done? then Updated(old(tasks), id, ColumnPatch(newColumnId)) else old(tasks)
      ensures id in old(tasks) && outcome.Done? ==>
        ColumnOf(tasks[id]) == newColumnId &&
        forall f | f != "columnId" :: Get(tasks[id], f) == Get(old(tasks)[id], f)
    {
      outcome := UpdateTask(id, ColumnPatch(newColumnId));
      if id in old(tasks) && outcome.Done? {
        MoveChangesOnlyColumn(old(tasks), id, newColumnId);
      }
    }

    /** `getTasksByColumn(columnId)`: the tasks whose `columnId` is `columnId`. */
    function GetTasksByColumn(columnId: Value): (r: Option<TaskMap>)
      reads this
      ensures r.Some? <==> hasDoc
      ensures r.Some? ==> forall k :: k in r.value <==> k in tasks && ColumnOf(tasks[k]) == columnId
      ensures r.Some? ==> forall k | k in r.value :: r.value[k] == tasks[k]
    {
      if hasDoc then Some(TasksInColumn(tasks, columnId)) else None
    }

    /** `destroy()`: the providers and the document are torn down (outside this
        model), every listener is dropped and the store is no longer initialized. */
    method Destroy()
      requires Valid()
      modifies this`listeners, this`isInitialized
      ensures Valid()
      ensures listeners == [] && !isInitialized
    {
      listeners := [];
      isInitialized := false;
    }
  }

  lemma ThrowingAppend(listeners: seq<Listener>, l: Listener, throws: set<Listener>)
    ensures Throwing(listeners + [l], throws) == Throwing(listeners, throws) + (if l in throws then [l] else [])
  {
    if listeners != [] {
      assert (listeners + [l])[1..] == listeners[1..] + [l];
      ThrowingAppend(listeners[1..], l, throws);
    }
  }
}
