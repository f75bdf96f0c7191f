# Kanban board: store, signaling relay and board rules in Dafny

A verified model of the sequential logic of a peer-to-peer Kanban board. It has three parts:

- **The store of tasks and columns** (`YjsStore`, module `Store` in `yjs_store.dfy`). It holds the board metadata map, the ordered column list, the `tasks` map, the listeners and the `isInitialized` flag. Its operations are one-time initialization with the default board, `addTask`, `updateTask`, `deleteTask`, `moveTask`, `getTasksByColumn`, `getBoardState`, `subscribe` with its canceller, `notifyListeners` and `destroy`. Each Yjs shared type is a plain map or sequence that one replica sees, and each `transact` is one atomic step. Tasks and columns are plain JavaScript objects. They are modelled as maps from property name to a JavaScript primitive (module `Records` in `records.dfy`), so object spread `{...task, ...updates}` is map union.
- **The signaling relay** (module `Signaling` in `signaling.dfy`). Its state is the `topics` map from topic name to a set of connections and each live connection's `subscribedTopics`. Connections are ids, and a parsed message is a datatype. `send` appends to an outbox. The handlers `subscribe`, `unsubscribe`, `publish`, `ping` and `close` are methods of the class `Relay`. Its invariant has two parts:
  - no topic maps to an empty set;
  - `c ∈ topics[t]` exactly when `t ∈ subscribedTopics(c)`.
- **The board view rules** (module `Board` in `board.dfy`). These are `getTasksForColumn` (filter, then newest first), the drop-target rule of `handleDragEnd`, and the update-or-add choice of `handleSaveTask`. Each is a function that returns the action to take.

Some store methods dereference the document, which is `null` until `initialize` has created it. Called before that, they throw a TypeError in the source, and the model returns `Failed(NoDocument)` instead. These methods are `initializeDefaultBoard`, `addTask` once its validation has passed, `updateTask`, `deleteTask` and `moveTask`. `getBoardState` and `getTasksByColumn` throw in the same way; in the model they return `None`, which stands for that TypeError. `subscribe`, `notifyListeners` and `destroy` never touch the document and never fail.

Three behaviours of the code shape the model:
- The store keeps no tombstones. Deleting a task removes the entry outright.
- An update of an id that is not present is a no-op.
- The relay as written crashes on two kinds of malformed message (see Findings). `Signaling.HandleAsWritten` models that handler. The `Relay` class runs the corrected handler `Signaling.Interpret`, which ignores those messages.

## Model

| member | source | states |
|---|---|---|
| `Records.Overlay` | src/store/yjs-store.js:212 | `{...base, ...updates}`: every property of `updates` wins, every other property of `base` is kept |
| `Records.OverlayIdempotent` | src/store/yjs-store.js:212 | overlaying the same updates twice equals overlaying them once |
| `Records.ToNumber` | src/components/Board.jsx:44 | the number the subtraction reads a value as: among non-strings only `undefined` is `NaN`, and `null`, `false` and `0` (the falsy ones) are exactly those read as 0 |
| `Records.BlankTextIsZero` | src/components/Board.jsx:44 | every string made only of white space reads as 0 |
| `Records.DecimalTextConverts` | src/components/Board.jsx:44 | every run of decimal digits, with any white space on either side, reads as its value |
| `Records.SignedTextConverts` | src/components/Board.jsx:44 | every such run behind a `-` reads as its negation, and behind a `+` as its value |
| `Records.NumericTextConverts` | src/components/Board.jsx:44 | examples: `" 42\n"` reads as 42, `"-7"` as -7, `" "` as 0 |
| `Records.OtherTextIsNaN` | src/components/Board.jsx:44 | examples: a lone `"-"` and `"4 2"` (digits with inner space) read as `NaN` |
| `Store.DefaultMetadata` | src/store/yjs-store.js:119-121 | the default board sets `title` to "My Kanban Board" and `createdAt` to the given time; other keys are kept |
| `Store.Added` | src/store/yjs-store.js:194-196 | a task is stored under its own `id`, replacing any entry with that id; every other entry is unchanged |
| `Store.Updated` | src/store/yjs-store.js:204-213 | an absent id leaves the map unchanged; a present id keeps its key, fields in the update win, all other fields are kept; no other key changes |
| `Store.Deleted` | src/store/yjs-store.js:221-224 | exactly that key is removed; the other entries keep their records |
| `Store.TasksInColumn` | src/store/yjs-store.js:240-243 | a key is in the result iff it is a stored task whose `columnId` equals the column, with its stored record |
| `Store.Without` | src/store/yjs-store.js:156-158 | removing a listener leaves exactly the other listeners, still without repeats |
| `Store.WithoutAppend` | src/store/yjs-store.js:156-158 | removal works piece by piece over a split of the list, so the remaining listeners keep their registration order |
| `Store.WithoutSingle` | src/store/yjs-store.js:156-158 | on a single listener, removal drops it exactly when it is the one cancelled |
| `Store.MoveChangesOnlyColumn` | src/store/yjs-store.js:232-235 | `moveTask(id, c)` sets that task's `columnId` to `c`; every other field and every other task is unchanged |
| `Store.MoveRehomesTask` | src/store/yjs-store.js:232-243 | after a move that task is in column `c`'s view and in no other; no other task changes column |
| `Store.UpdateIdempotent` | src/store/yjs-store.js:204-213 | applying the same update twice equals applying it once |
| `Store.AddThenDeleteRestores` | src/store/yjs-store.js:189-224 | adding a task under a fresh id and then deleting that id gives back the original map |
| `Store.ColumnViewsAreDisjoint` | src/store/yjs-store.js:240-243 | no task appears in the views of two different columns |
| `Store.SubscribeThenCancelRestores` | src/store/yjs-store.js:152-159 | subscribing a new listener and calling its canceller restores the listener list |
| `Store.YjsStore.constructor` | src/store/yjs-store.js:17-27 | a new store has no document, no listeners, empty state and is not initialized |
| `Store.YjsStore.Initialize` | src/store/yjs-store.js:33-101 | a call made after an earlier one has finished changes nothing; otherwise the document is loaded from the persisted state, and the default board is created only when the loaded column list is empty; the store is then initialized |
| `Store.YjsStore.InitializeDefaultBoard` | src/store/yjs-store.js:106-125 | appends the three default columns in order and sets the title and creation time; tasks and listeners are unchanged |
| `Store.YjsStore.Subscribe` | src/store/yjs-store.js:152-159 | the listener is registered once, appended after the existing ones, and its canceller names it |
| `Store.YjsStore.Unsubscribe` | src/store/yjs-store.js:156-158 | the canceller removes exactly its own listener |
| `Store.YjsStore.NotifyListeners` | src/store/yjs-store.js:164-172 | every registered listener is called once with the change, in registration order, including those after a listener that throws; the errors logged are exactly those of the throwing listeners |
| `Store.YjsStore.GetBoardState` | src/store/yjs-store.js:177-184 | with a document, the snapshot carries the stored title, creation time, columns and tasks |
| `Store.YjsStore.AddTask` | src/store/yjs-store.js:189-199 | fails iff `id` or `columnId` is falsy, before anything else and with no change; otherwise the `tasks` map becomes `Added` of the old one |
| `Store.YjsStore.UpdateTask` | src/store/yjs-store.js:204-216 | a missing id changes nothing; otherwise the `tasks` map becomes `Updated` of the old one |
| `Store.YjsStore.DeleteTask` | src/store/yjs-store.js:221-227 | the `tasks` map becomes `Deleted` of the old one; an absent id changes nothing |
| `Store.YjsStore.MoveTask` | src/store/yjs-store.js:232-235 | equals `updateTask(id, {columnId: c})`: only `columnId` of that task changes, and a missing id changes nothing |
| `Store.YjsStore.GetTasksByColumn` | src/store/yjs-store.js:240-243 | with a document, returns exactly the stored tasks whose `columnId` is the given column |
| `Store.YjsStore.Destroy` | src/store/yjs-store.js:259-272 | all listeners are dropped and the store is no longer initialized |
| `Signaling.HandleAsWritten` | server/signaling.js:28-80 | the handler throws exactly on the text `null` and on a subscribe/unsubscribe whose `topics` is a truthy non-array; it ignores exactly unparseable text and unknown types |
| `Signaling.HandlerThrowsOnMalformedInput` | server/signaling.js:29-40 | the concrete inputs on which the handler as written throws |
| `Signaling.Interpret` | server/signaling.js:28-80 | the corrected handler: the same command wherever the original does not throw, and `Ignore` where it does |
| `Signaling.Join` | server/signaling.js:39-48 | `c` joins every named topic, and entries are created as needed; no other membership changes |
| `Signaling.Leave` | server/signaling.js:50-62 | `c` leaves every named topic and any topic left empty is dropped; no other membership changes |
| `Signaling.Recipients` | server/signaling.js:64-75 | a publish reaches the members of that one topic other than the sender, and no one when the topic is falsy or has no entry |
| `Signaling.JoinStep` | server/signaling.js:40-47 | one iteration of the subscribe loop extends the set-level join by one topic |
| `Signaling.JoinNone` | server/signaling.js:40-47 | subscribing to no topic leaves the topic map as it was |
| `Signaling.LeaveStep` | server/signaling.js:51-61 | one iteration of the unsubscribe or close loop extends the set-level leave by one topic |
| `Signaling.JoinKeepsInvariants` | server/signaling.js:39-48 | subscribe keeps "no empty topic" and the agreement of the two membership views |
| `Signaling.LeaveKeepsInvariants` | server/signaling.js:50-62 | unsubscribe keeps "no empty topic" and the agreement of the two membership views |
| `Signaling.CloseKeepsInvariants` | server/signaling.js:83-91 | after close the connection is in no topic, every other connection's membership is unchanged, and both invariants hold for the remaining connections |
| `Signaling.JoinIdempotent` | server/signaling.js:39-48 | repeating a subscribe changes nothing |
| `Signaling.PublishReachesExactlyTheTopic` | server/signaling.js:64-75 | a connection receives a publish to topic `a` iff it is not the sender and has `a` among its own subscriptions |
| `Signaling.Fanout` | server/signaling.js:68-72 | the raw message goes to each receiver except the sender exactly once, and to no one else |
| `Signaling.Relay.constructor` | server/signaling.js:21 | the relay starts with no topics, no connections and nothing sent |
| `Signaling.Relay.Connect` | server/signaling.js:23-26 | a new connection starts with an empty subscription set; the invariants are kept |
| `Signaling.Relay.Subscribe` | server/signaling.js:39-48 | topics become `Join` of the old map and the connection's subscriptions gain the names; the invariants are kept |
| `Signaling.Relay.Unsubscribe` | server/signaling.js:50-62 | topics become `Leave` of the old map and the connection's subscriptions lose the names; the invariants are kept |
| `Signaling.Relay.Publish` | server/signaling.js:64-75 | appends one verbatim copy of the message for each recipient; with no recipients nothing is sent; no membership changes |
| `Signaling.Relay.Ping` | server/signaling.js:77-79 | appends exactly one `{"type":"pong"}` to the sender; no membership changes |
| `Signaling.Relay.OnMessage` | server/signaling.js:28-81 | dispatches on the message through the corrected handler `Interpret`; unparseable or unknown messages change nothing and send nothing. Where the source throws (the text `null`, or a non-array `topics`), the model ignores the message |
| `Signaling.Relay.Close` | server/signaling.js:83-91 | the connection leaves all its topics with empty-topic clean-up, is forgotten, and belongs to no topic afterwards |
| `Board.FilterColumn` | src/components/Board.jsx:39-40 | each task with that `columnId` is kept as often as it occurs; every other task is dropped |
| `Board.Insert` | src/components/Board.jsx:41-45 | inserting adds exactly that task to the multiset |
| `Board.SortNewestFirst` | src/components/Board.jsx:41-45 | sorting is a permutation |
| `Board.InsertMembers` | src/components/Board.jsx:41-45 | inserting into a list adds only the inserted task: every member of the result is that task or came from the list |
| `Board.ConsOrder` | src/components/Board.jsx:41-45 | a list with a head is newest first exactly when its tail is newest first and no later task is newer than the head |
| `Board.InsertKeepsOrder` | src/components/Board.jsx:41-45 | inserting into a newest-first list keeps it newest first |
| `Board.SortOrders` | src/components/Board.jsx:41-45 | when every `updatedAt` converts to a number, the sorted list is newest first |
| `Board.GetTasksForColumn` | src/components/Board.jsx:38-46 | every task shown is in that column, and as many are shown as the filter keeps |
| `Board.ColumnViewContents` | src/components/Board.jsx:38-46 | the view is a permutation of exactly the tasks of the column: each is shown as often as it occurs, and no task of another column is shown |
| `Board.ColumnViewOrder` | src/components/Board.jsx:41-45 | when the `updatedAt` of every task of the column converts to a number (`null` as 0, `true` as 1, a numeric string as its value), the view is ordered newest first |
| `Board.NullTimeSortsLast` | src/components/Board.jsx:39-45 | a task with `updatedAt: null` counts as time 0 and is shown after a task of the same column updated at time 5 |
| `Board.TargetColumn` | src/components/Board.jsx:63-78 | a column id is its own target and is checked first; otherwise the target is the named task's column; an unknown id gives `null` |
| `Board.HandleDragEnd` | src/components/Board.jsx:52-85 | no drop target means no move. A move names the dragged task and a truthy target that differs from its current column. It throws iff a target is found but the dragged task is gone |
| `Board.DropOnColumnWins` | src/components/Board.jsx:68-71 | a drop on a column moves the dragged task there unless it is already there, even if a task has the same id |
| `Board.DropOnTaskFollowsItsColumn` | src/components/Board.jsx:72-82 | a drop on a task moves the dragged task to that task's column; an unknown id moves nothing |
| `Board.HandleSaveTask` | src/components/Board.jsx:103-109 | update iff the data carries a truthy `id` (with that id and data), add otherwise (with its column, title and description), never both |

## Left out

- The Yjs library is not modelled: `Y.Doc`, the conflict-free merge, `transact` as a transaction object, and the `observe` events. So the wiring in `setupObservers` that calls `notifyListeners` after each change is not modelled either, and neither are the convergence and idempotence of remote updates. The library is not part of this model.
- Persistence and transport providers (IndexedDB, WebRTC) and the wait for `'synced'` are not modelled. `Initialize` takes the persisted state as a parameter. The random `maxConns` and `getConnectionStatus` only concern the provider.
- `Date.now()` is a parameter (`now`). Console logging is dropped.
- Destroying the providers and the document is not modelled. `Store.YjsStore.Destroy` keeps the document contents in the model, because later calls reach the same shared types.
- Numbers are integers. `NaN`, fractions and JavaScript's coercion of property keys to strings are not modelled. Reading text as a number covers blank and signed decimal strings with ASCII white space. Hexadecimal, binary (`0b`) and octal (`0o`) prefixes, exponent, fraction and `Infinity` forms, and non-ASCII white space (such as U+00A0, U+FEFF and U+2028) read as `NaN` in the model, although JavaScript gives them a value. Task ids are compared as values; `Object.fromEntries` in the source would turn them into string keys.
- Store.YjsStore.Initialize: each call is one atomic step, so the guard is modelled as covering every later call. In the source, `isInitialized` is set only after the wait for `'synced'`. A second call made while an earlier one is still waiting therefore passes the guard, replaces the room name, the document and the shared types, and opens a second persistence provider. That overlap is not modelled.
- Store.YjsStore.GetTasksByColumn: returns the matching tasks keyed by id instead of as an array. The iteration order of the Yjs map is not modelled.
- Board.GetTasksForColumn: takes `Object.values(board.tasks)` as a sequence in whatever order the object yields. Its own contract is weaker than the source's; the full statement is in `Board.ColumnViewContents` and `Board.ColumnViewOrder`.
- Board.ColumnViewOrder: states the newest-first order only when the `updatedAt` of every task of the column converts to a number. When one is `undefined` or text that is not a number, the comparator returns `NaN` for it and the order is up to the JavaScript engine. The model then treats that task as tied with every other. The order among equal times is not stated.
- Signaling.Fanout: does not state the order of the sends. JavaScript sets iterate in insertion order; the model's sets have no order.
- Topic names are strings. Non-string elements of a `topics` array are not modelled. A non-string `topic` in a publish therefore matches no entry.
- The HTTP health check, the WebSocket server, `JSON.parse` and `listen` are not modelled. A connection is a fresh id (`Connect` requires that), and a message handler receives the raw text together with its parsed form.
- Signaling.Relay.OnMessage: runs the corrected handler. On the text `null`, and on a subscribe or unsubscribe whose `topics` is a truthy non-array, the source throws out of the message handler. The model ignores those messages and changes nothing. The as-written behaviour is stated by `Signaling.HandleAsWritten` (see Findings).
- Sending on a socket that is closing, and listeners that subscribe or cancel while `notifyListeners` is iterating, are not modelled.
- The React hook (`useKanbanStore`) and the rendering components are not modelled: the hook's id and timestamp generation, the polling, the JSX, the sensors, `DndContext`, and the `setActiveId`/`setModalState` calls.

## Findings

| source | as written | input that shows it | evidently intended | confidence | as-written member | corrected member |
|---|---|---|---|---|---|---|
| server/signaling.js:29-51 | The handler destructures the parsed value and calls `(messageTopics \|\| []).forEach`. Destructuring `null` throws. So does `forEach` on a truthy non-array `topics`. Nothing catches either error, so it escapes the WebSocket message handler and ends the relay process. | the message text `null`, or `{"type":"subscribe","topics":"room"}` | ignore a malformed message with no state change, as the handler already does for unparseable text and unknown types | medium, not executed | `Signaling.HandleAsWritten` | `Signaling.Interpret` |
