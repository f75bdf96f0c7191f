/** The decision rules of the board view: which tasks a column shows and in
    what order, which move a drop asks for, and whether saving the form of a task
    updates a task or adds one. Each rule is a function returning the action
    to take; rendering, the drag-and-drop sensors and the modal state are not
    part of this model. */
module Board {
  import opened Records
  import Store

  // ---- Column view -----------------------------------------------------------------------

  /** `.filter(task => task.columnId === columnId)`. */
  function FilterColumn(tasks: seq<Record>, columnId: Value): (r: seq<Record>)
    ensures forall x :: multiset(r)[x] == if ColumnOf(x) == columnId then multiset(tasks)[x] else 0
  {
    if tasks == [] then []
    else
      assert tasks == [tasks[0]] + tasks[1..];
      (if ColumnOf(tasks[0]) == columnId then [tasks[0]] else []) + FilterColumn(tasks[1..], columnId)
  }

  /** `task.updatedAt` as the subtraction in the comparator reads it: converted
      to a number (`null` is 0, `"7"` is 7), `None` where that gives `NaN`. */
  function UpdatedAt(task: Record): Option<int>
  {
    ToNumber(Get(task, "updatedAt"))
  }

  predicate Timed(task: Record)
  {
    UpdatedAt(task).Some?
  }

  /** With the comparator `(a, b) => b.updatedAt - a.updatedAt`, `b` sorts
      strictly before `a`: both times convert to numbers and `b` is newer. A
      `NaN` difference counts as a tie. */
  predicate Newer(b: Record, a: Record)
  {
    Timed(a) && Timed(b) && UpdatedAt(b).value > UpdatedAt(a).value
  }

  /** Newest first: no task is strictly newer than one placed before it. */
  ghost predicate NewestFirst(s: seq<Record>)
  {
    forall i, j | 0 <= i < j < |s| :: !Newer(s[j], s[i])
  }

  ghost predicate AllTimed(s: seq<Record>)
  {
    forall x | x in s :: Timed(x)
  }

  /** Places `x` in front of the first task that is not strictly newer than it;
      `x` stays ahead of tasks with the same time. */
  function Insert(x: Record, sorted: seq<Record>): (r: seq<Record>)
    ensures multiset(r) == multiset(sorted) + multiset{x}
  {
    if sorted == [] || !Newer(sorted[0], x) then [x] + sorted
    else
      assert sorted == [sorted[0]] + sorted[1..];
      [sorted[0]] + Insert(x, sorted[1..])
  }

  /** The `.sort(...)` by `updatedAt`, newest first: an insertion sort that keeps
      tasks with equal times in their original order. */
  function SortNewestFirst(s: seq<Record>): (r: seq<Record>)
    ensures multiset(r) == multiset(s)
  {
    if s == [] then []
    else
      assert s == [s[0]] + s[1..];
      Insert(s[0], SortNewestFirst(s[1..]))
  }

  /** `getTasksForColumn(columnId)` over `Object.values(board.tasks)`. */
  function GetTasksForColumn(values: seq<Record>, columnId: Value): (r: seq<Record>)
    ensures forall x | x in r :: ColumnOf(x) == columnId
    ensures |r| == |FilterColumn(values, columnId)|
  {
    SortNewestFirst(FilterColumn(values, columnId))
  }

  /** Whatever `Insert` places in the list is `x` or came from `sorted`. */
  lemma InsertMembers(x: Record, sorted: seq<Record>)
    ensures forall y | y in Insert(x, sorted) :: y == x || y in sorted
  {
    forall y | y in Insert(x, sorted)
      ensures y == x || y in sorted
    {
      assert multiset(Insert(x, sorted))[y] > 0;
    }
  }

  /** A list is newest first exactly when its tail is and no task of the tail
      is newer than its head. */
  lemma ConsOrder(h: Record, t: seq<Record>)
    ensures NewestFirst([h] + t) <==> NewestFirst(t) && forall y | y in t :: !Newer(y, h)
  {
    var s := [h] + t;
    if NewestFirst(t) && forall y | y in t :: !Newer(y, h) {
      forall i, j | 0 <= i < j < |s|
        ensures !Newer(s[j], s[i])
      {
        assert s[j] == t[j - 1];
        if i > 0 {
          assert s[i] == t[i - 1];
        }
      }
    }
    if NewestFirst(s) {
      forall i, j | 0 <= i < j < |t|
        ensures !Newer(t[j], t[i])
      {
        assert s[i + 1] == t[i] && s[j + 1] == t[j];
      }
      forall y | y in t
        ensures !Newer(y, h)
      {
        var k :| 0 <= k < |t| && t[k] == y;
        assert s[0] == h && s[k + 1] == y;
      }
    }
  }

  lemma {:induction false} InsertKeepsOrder(x: Record, sorted: seq<Record>)
    requires Timed(x) && AllTimed(sorted) && NewestFirst(sorted)
    ensures AllTimed(Insert(x, sorted)) && NewestFirst(Insert(x, sorted))
  {
    InsertMembers(x, sorted);
    if sorted == [] || !Newer(sorted[0], x) {
      ConsOrder(x, sorted);
      if sorted != [] {
        var rest := sorted[1..];
        assert sorted == [sorted[0]] + rest;
        ConsOrder(sorted[0], rest);
        forall y | y in sorted
          ensures !Newer(y, x)
        {
          if y != sorted[0] {
            assert y in rest && !Newer(y, sorted[0]);
          }
        }
      }
    } else {
      var rest := sorted[1..];
      assert sorted == [sorted[0]] + rest;
      ConsOrder(sorted[0], rest);
      InsertKeepsOrder(x, rest);
      InsertMembers(x, rest);
      ConsOrder(sorted[0], Insert(x, rest));
    }
  }

  lemma {:induction false} SortOrders(s: seq<Record>)
    requires AllTimed(s)
    ensures NewestFirst(SortNewestFirst(s)) && AllTimed(SortNewestFirst(s))
  {
    if s != [] {
      assert s == [s[0]] + s[1..];
      SortOrders(s[1..]);
      InsertKeepsOrder(s[0], SortNewestFirst(s[1..]));
    }
  }

  /** The column view holds exactly the tasks of that column, each as often as it
      occurs among the board's tasks. */
  lemma ColumnViewContents(values: seq<Record>, columnId: Value)
    ensures forall x ::
      multiset(GetTasksForColumn(values, columnId))[x] == (if ColumnOf(x) == columnId then multiset(values)[x] else 0)
    ensures forall x | x in GetTasksForColumn(values, columnId) :: ColumnOf(x) == columnId && x in values
  {
    var r := GetTasksForColumn(values, columnId);
    forall x | x in r
      ensures ColumnOf(x) == columnId && x in values
    {
      assert multiset(r)[x] > 0;
    }
  }

  /** When the `updatedAt` of every task of the column converts to a number,
      the column view lists them newest first. */
  lemma ColumnViewOrder(values: seq<Record>, columnId: Value)
    requires forall x | x in values && ColumnOf(x) == columnId :: Timed(x)
    ensures NewestFirst(GetTasksForColumn(values, columnId))
  {
    var filtered := FilterColumn(values, columnId);
    forall x | x in filtered
      ensures Timed(x)
    {
      assert multiset(filtered)[x] > 0;
    }
    SortOrders(filtered);
  }

  /** A task whose `updatedAt` is `null` counts as time 0, so it sorts after a
      task of the same column updated at time 5. */
  lemma NullTimeSortsLast()
    ensures var tn := map["columnId" := Str("c"), "updatedAt" := Null];
      var t5 := map["columnId" := Str("c"), "updatedAt" := Num(5)];
      GetTasksForColumn([tn, t5], Str("c")) == [t5, tn]
  {
    var tn := map["columnId" := Str("c"), "updatedAt" := Null];
    var t5 := map["columnId" := Str("c"), "updatedAt" := Num(5)];
    assert [tn, t5][1..] == [t5];
    assert FilterColumn([t5], Str("c")) == [t5] by {
      assert [t5][1..] == [];
    }
    assert FilterColumn([tn, t5], Str("c")) == [tn, t5];
    assert SortNewestFirst([t5]) == [t5] by {
      assert [t5][1..] == [];
    }
    assert Newer(t5, tn);
    assert Insert(tn, [t5]) == [t5] + Insert(tn, []) by {
      assert [t5][1..] == [];
    }
  }

  // ---- Drop target -----------------------------------------------------------------------

  /** A drag-end event: the dragged task's id and, if the pointer is over a
      droppable, that droppable's id. */
  datatype DragEnd = DragEnd(active: Value, over: Option<Value>)

  /** What a drop does: nothing, one `moveTask`, or a TypeError when the
      dragged task is no longer on the board. */
  datatype DropAction = NoMove | Move(taskId: Value, columnId: Value) | Throws

  /** `board.columns.some(col => col.id === overId)`. */
  predicate IsColumnId(columns: seq<Record>, id: Value)
  {
    exists i | 0 <= i < |columns| :: Get(columns[i], "id") == id
  }

  /** The `targetColumnId` of `handleDragEnd`: the id itself when it names a
      column (checked first), else the column of whichever task it names, else `null`. */
  function TargetColumn(board: Store.BoardState, overId: Value): (target: Value)
    ensures IsColumnId(board.columns, overId) ==> target == overId
    ensures !IsColumnId(board.columns, overId) && overId in board.tasks ==>
      target == ColumnOf(board.tasks[overId])
    ensures !IsColumnId(board.columns, overId) && overId !in board.tasks ==> target == Null
  {
    if IsColumnId(board.columns, overId) then overId
    else if overId in board.tasks then ColumnOf(board.tasks[overId])
    else Null
  }

  /** `handleDragEnd(event)`. */
  function HandleDragEnd(board: Store.BoardState, event: DragEnd): (action: DropAction)
    ensures event.over.None? ==> action == NoMove
    ensures action.Move? ==>
      && event.over.Some?
      && action.taskId == event.active
      && event.active in board.tasks
      && action.columnId == TargetColumn(board, event.over.value)
      && Truthy(action.columnId)
      && action.columnId != ColumnOf(board.tasks[event.active])
    ensures action.Throws? <==>
      event.over.Some? && Truthy(TargetColumn(board, event.over.value)) && event.active !in board.tasks
  {
    match event.over
    case None => NoMove
    case Some(overId) =>
      var target := TargetColumn(board, overId);
      if !Truthy(target) then NoMove
      else if event.active !in board.tasks then Throws
      else if ColumnOf(board.tasks[event.active]) != target then Move(event.active, target)
      else NoMove
  }

  /** A drop over a column id moves the dragged task to that column (unless it is
      already there), even when some task has that same id. */
  lemma DropOnColumnWins(board: Store.BoardState, active: Value, overId: Value)
    requires IsColumnId(board.columns, overId) && Truthy(overId)
    requires active in board.tasks
    ensures HandleDragEnd(board, DragEnd(active, Some(overId))) ==
      if ColumnOf(board.tasks[active]) == overId then NoMove else Move(active, overId)
  {
  }

  /** A drop over a task moves the dragged task into that task's column; a drop
      over an id that is neither a column nor a task moves nothing. */
  lemma DropOnTaskFollowsItsColumn(board: Store.BoardState, active: Value, overId: Value)
    requires !IsColumnId(board.columns, overId)
    requires active in board.tasks
    ensures overId !in board.tasks ==> HandleDragEnd(board, DragEnd(active, Some(overId))) == NoMove
    ensures overId in board.tasks && Truthy(ColumnOf(board.tasks[overId])) ==>
      HandleDragEnd(board, DragEnd(active, Some(overId))) ==
        if ColumnOf(board.tasks[active]) == ColumnOf(board.tasks[overId]) then NoMove
        else Move(active, ColumnOf(board.tasks[overId]))
  {
  }

  // ---- Saving the form of a task --------------------------------------------------------------

  /** The store action `handleSaveTask` picks. */
  datatype SaveAction =
    | UpdateExisting(id: Value, data: Record)
    | AddNew(columnId: Value, title: Value, description: Value)

  /** `handleSaveTask(taskData)`: update when the data carries a truthy `id`,
      add otherwise, never both. */
  function HandleSaveTask(taskData: Record): (action: SaveAction)
    ensures action.UpdateExisting? <==> Truthy(Get(taskData, "id"))
    ensures action.UpdateExisting? ==> action.id == Get(taskData, "id") && action.data == taskData
    ensures action.AddNew? ==>
      && action.columnId == ColumnOf(taskData)
      && action.title == Get(taskData, "title")
      && action.description == Get(taskData, "description")
  {
    if Truthy(Get(taskData, "id")) then UpdateExisting(Get(taskData, "id"), taskData)
    else AddNew(ColumnOf(taskData), Get(taskData, "title"), Get(taskData, "description"))
  }
}
