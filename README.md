# kumos runtime core and two example apps, in Dafny

kumos is a small virtual-DOM framework. This project models the parts of its runtime and of two example apps that can be read on their own:

- the virtual-node constructors `h`, `hString` and `hFragment`, with their child normalisation (`VDom`);
- `withoutNulls` (`Arrays`) and the shallow `objectsDiff` (`Objects`);
- attribute application against a host element (`Attributes`);
- `mountDOM` (`MountDom`) and `destroyDOM` (`DestroyDom`);
- the command `Dispatcher` (`Dispatching`);
- the tic-tac-toe mark reducer and winner check (`TicTacToe`);
- the seven to-do reducers (`Todos`).

The browser DOM is replaced by an abstract host tree (`Host`). `class HostTree` holds an arena `map<NodeId, HostNode>` and the next free id. Each host node records:

- its kind (text or element);
- its parent and its ordered child list;
- for an element, the `className`, a style map, an attribute map, a property map and a set of `(event, handler)` listeners.

Virtual nodes are the immutable values that `h` builds. Their mutable `el` slot and listener record live in `class VTree` (`VTrees`), keyed by the node's path from the root. `DomState` is the pair of host arena and slots.

Each imperative operation is modelled as a method whose `ensures` ties the new state to a specification function of the old state. Lemmas about those functions state what the runtime promises:

- mount creates and appends exactly one node;
- destroy clears every `el` and listener record below the destroyed node and detaches its host nodes. Outside the subtree it leaves every slot alone. In the host tree, every node keeps its kind, class, style, attributes and properties; it can only lose listeners, lose its parent, or lose children (the rest keep their order);
- an unsubscribe removes exactly its handler;
- and so on for the other operations.

Handlers are identity tokens (`nat`). `dispatch` returns the sequence of invocations it makes, with the payload for command handlers and no argument for after-command handlers. `console.warn` becomes a returned `warned` flag.

Where the code and its documented intent disagree, the model follows the code. It then proves the discrepancy, and the intended behaviour is modelled beside it (see "## Findings"). One disagreement needs no corrected member. The mount test at packages/runtime/src/__tests__/mount-dom.test.js:9-12 expects mounting an element without a parent to throw. The element case of `mountDOM` is an empty stub, so the model returns `Ok` with nothing changed (`MountDom.MountStubs`).

## Model

| member | source | states |
|---|---|---|
| VDom.TypeOf | packages/runtime/src/h.js:4-8 | each node kind has its own type tag: `"text"`, `"element"` or `"fragment"` |
| VDom.MapTextNodes | packages/runtime/src/h.js:67-71 | the child list keeps its length and order; each string child becomes a text node with that string, and every vnode child stays as it is |
| VDom.NormalizeChildrenIsNormalized | packages/runtime/src/h.js:32 | `mapTextNodes(withoutNulls(children))`, computed in one pass, equals the composition of the two steps |
| VDom.NormalizedCount | packages/runtime/src/h.js:32 | the number of normalised children equals the number of inputs that are not null or undefined |
| VDom.NormalizedStrings | packages/runtime/src/h.js:67-71 | a string child becomes a text node holding it, at the position given by the defined children before it |
| VDom.H | packages/runtime/src/h.js:28-35 | the result is an element with the given tag; its props are the given ones or `{}` when omitted; its children are the normalised list, or `[]` when omitted |
| VDom.HString | packages/runtime/src/h.js:43-45 | the result is a text node with the string verbatim as its value |
| VDom.HFragment | packages/runtime/src/h.js:55-60 | the result is a fragment with normalised children and no tag or props |
| VDom.ElementExample | packages/runtime/src/__tests__/h.test.js:12-32 | the element built in the runtime's `h` test has the expected shape |
| Arrays.WithoutNulls | packages/runtime/src/utils/arrays.js:6-8 | the result has no nulls and is a subsequence of the input; it holds exactly the defined items; it is no longer than the input |
| Arrays.WithoutNullsLength | packages/runtime/src/utils/arrays.js:7 | the length is unchanged iff the input has no nulls, and then the result is the input |
| Arrays.WithoutNullsIdempotent | packages/runtime/src/utils/arrays.js:7 | filtering twice is the same as filtering once |
| Arrays.WithoutNullsCount | packages/runtime/src/utils/arrays.js:7 | the result length is the number of defined items |
| Arrays.WithoutNullsExample | packages/runtime/src/__tests__/arrays.test.js:4-6 | `[1,2,null,3]` gives `[1,2,3]` |
| Objects.Lookup | packages/runtime/src/utils/objects.js:19 | a key is found iff the object has it, and then the found value is that key's entry |
| Objects.LookupEntry | packages/runtime/src/utils/objects.js:19 | with distinct keys, looking up an entry's key gives that entry's value |
| Objects.ObjectsDiff | packages/runtime/src/utils/objects.js:11-22 | `added` is exactly the new keys absent from the old object, in the new object's order. `removed` is exactly the old keys absent from the new one, in the old object's order. `updated` is exactly the shared keys whose values differ, in the new object's order |
| Objects.DiffDisjoint | packages/runtime/src/utils/objects.js:16-20 | the three lists are pairwise disjoint, and added and updated keys are keys of the new object |
| Objects.AddedIsDetermined | packages/runtime/src/utils/objects.js:16 | with distinct keys, any ordered sub-list of the new keys holding exactly the added keys is `added` |
| Objects.DiffWithSelf | packages/runtime/src/utils/objects.js:11-22 | diffing an object against itself gives three empty lists |
| Objects.DiffOfEqualObjects | packages/runtime/src/__tests__/objects.test.js:4-12 | two equal one-key objects give no changes |
| Objects.DiffAddedKey | packages/runtime/src/__tests__/objects.test.js:14-22 | a new `color` key is reported as added |
| Objects.DiffRemovedKey | packages/runtime/src/__tests__/objects.test.js:24-32 | a dropped `foo` key is reported as removed; the shared key `test` holds the number 123 on both sides and is not reported |
| Objects.DiffUpdatedKey | packages/runtime/src/__tests__/objects.test.js:34-42 | a changed `foo` value is reported as updated |
| Attributes.Dedup | packages/runtime/src/attributes.js:48 | `classList.add` keeps each token once: the result is duplicate-free with the same tokens |
| Attributes.DedupOfDistinct | packages/runtime/src/attributes.js:48 | adding distinct tokens keeps them in the given order |
| Attributes.ClassNameFor | packages/runtime/src/attributes.js:38-50 | the class is reset to `""` first. A string becomes the class verbatim. A list of distinct tokens becomes the tokens joined by single spaces. Any other value leaves `""` |
| Attributes.ClassListExample | packages/runtime/src/__tests__/attributes.test.js:19-27 | `["foo","bar","test"]` gives `"foo bar test"` |
| Attributes.ApplyStylesEffect | packages/runtime/src/attributes.js:19-23 | style properties without an entry are unchanged; with distinct names, each entry's property holds its value |
| Attributes.AttributeSetFrame | packages/runtime/src/attributes.js:80-89 | setting one name touches no other attribute or property, and never the class, style or listeners |
| Attributes.ApplyOthersFrame | packages/runtime/src/attributes.js:26-28 | the loop over the other attributes leaves the class, the style and the listeners alone, and never changes an unmentioned name |
| Attributes.ApplyOthersEntries | packages/runtime/src/attributes.js:26-28 | with distinct names, each entry is applied. A `null` value nulls the property (unless the host rejects that) and removes the attribute. A `data-` name is written to the attributes. Any other name is written as a property |
| Attributes.RestEntries | packages/runtime/src/attributes.js:11 | `...otherAttributes` holds exactly the keys other than `class` and `style`, and keeps distinct keys distinct |
| Attributes.AttributesAppliedEffect | packages/runtime/src/attributes.js:10-29 | the class changes only when `class` is truthy. The style changes only when `style` is truthy; then each of its entries sets its style property, and style properties it does not mention keep their values. Listeners are untouched. Unmentioned attributes and properties are unchanged. Every other entry is applied by the `setAttribute` rule |
| Attributes.OnIsAProperty | packages/runtime/src/attributes.js:10-29 | an `on` key is not stripped: it is written as an ordinary property |
| Attributes.SetClass | packages/runtime/src/attributes.js:38-50 | only the element's `className` changes, to the value `ClassNameFor` gives |
| Attributes.SetStyle | packages/runtime/src/attributes.js:59-61 | only that one style property changes, to the value |
| Attributes.RemoveStyle | packages/runtime/src/attributes.js:69-71 | only that one style property changes, to `null` |
| Attributes.RemoveAttribute | packages/runtime/src/attributes.js:97-107 | the property is nulled unless the host rejects it, in which case it warns instead. The attribute is removed in both cases |
| Attributes.SetAttribute | packages/runtime/src/attributes.js:80-89 | the element changes as the `null` / `data-` / property rule says, and nothing else changes |
| Attributes.SetStyles | packages/runtime/src/attributes.js:20-23 | the loop leaves the element's style equal to the in-order fold of the entries, with nothing else changed |
| Attributes.SetOtherAttributes | packages/runtime/src/attributes.js:26-28 | the loop leaves the element equal to the in-order fold of `setAttribute` over the entries |
| Attributes.SetAttributes | packages/runtime/src/attributes.js:10-29 | the class step, then the style step, then the other entries; the result is what `AttributesAppliedEffect` describes |
| Host.DetachWellFormed | packages/runtime/src/destroy-dom.js:37 | `el.remove()` keeps the parent and child links consistent and leaves the node with no parent |
| Host.AppendChildWellFormed | packages/runtime/src/mount-dom.js:25 | `parentEl.append` keeps the parent and child links consistent |
| Host.AppendThenDetach | packages/runtime/src/mount-dom.js:23-25 | appending a fresh text node and then removing it gives back the arena with only the new detached node added |
| MountDom.MountText | packages/runtime/src/mount-dom.js:20-26 | the result is `Ok`. One fresh text node holding the value is created. Its id is stored in `el`. It becomes the parent's last child, and the parent's other children keep their order. Nothing else changes |
| MountDom.MountTextWithoutParent | packages/runtime/src/mount-dom.js:24-25 | without a parent the append fails with a `TypeError`. The text node and `el` were already set |
| MountDom.MountStubs | packages/runtime/src/mount-dom.js:28-30 | mounting an element or fragment changes nothing |
| MountDom.MountUnknown | packages/runtime/src/mount-dom.js:15-16 | an unknown type raises an error naming it and changes nothing |
| MountDom.CreateTextNode | packages/runtime/src/mount-dom.js:20-26 | the method's new host tree and slots are those of the mount specification |
| MountDom.MountDOM | packages/runtime/src/mount-dom.js:3-18 | the method dispatches on the node type and ends in the state of the mount specification |
| DestroyDom.DestroySpec | packages/runtime/src/destroy-dom.js:11-32 | destroy never adds or deletes host nodes |
| DestroyDom.DestroyEvolves | packages/runtime/src/destroy-dom.js:11-32 | destroy creates and deletes no host node. Each node keeps its kind, class, style, attributes and properties. It can only lose listeners, lose its parent, or lose children, the remaining children keeping their order. Slots are only cleared, and only slots of the destroyed subtree. A well-formed tree stays well formed, and a detached node stays detached |
| DestroyDom.ElementEvolves | packages/runtime/src/destroy-dom.js:40-52 | the same holds for removing an element, with the element's own slot among those it may clear |
| DestroyDom.DestroyChildrenEvolves | packages/runtime/src/destroy-dom.js:44-46 | destroying the children in order touches only slots strictly below the parent |
| DestroyDom.DestroyUnmounts | packages/runtime/src/destroy-dom.js:11-60 | on a mounted tree destroy succeeds. Afterwards no node of the subtree has an `el` or a listener record. Every host node it had is detached, and its recorded listeners are gone |
| DestroyDom.ElementUnmounts | packages/runtime/src/destroy-dom.js:40-52 | removing a mounted element succeeds and unmounts it and all of its children |
| DestroyDom.ChildrenUnmount | packages/runtime/src/destroy-dom.js:44-46 | destroying a mounted child list in order succeeds and unmounts every child |
| DestroyDom.UnlistenEffect | packages/runtime/src/destroy-dom.js:48-51 | each recorded `(event, handler)` pair is removed from the element, and the listener record is deleted |
| DestroyDom.DestroyText | packages/runtime/src/destroy-dom.js:34-38 | destroying a text node succeeds. Its host node is removed from its parent's child list and left without a parent. `el` is cleared. Every other node except the parent is unchanged |
| DestroyDom.DestroyUnknown | packages/runtime/src/destroy-dom.js:27-28 | an unknown type raises an error naming it and changes nothing |
| DestroyDom.DestroyWithoutEl | packages/runtime/src/destroy-dom.js:34-42 | a text or element node without `el` fails with a `TypeError` |
| DestroyDom.MountThenDestroy | packages/runtime/src/destroy-dom.js:34-38 | mounting a text node and then destroying it leaves only the detached node behind |
| DestroyDom.DestroyAsWritten | packages/runtime/src/destroy-dom.js:11-32 | as written, with the helpers called without their argument, every call fails and changes nothing |
| DestroyDom.DestroyAsWrittenFailsOnMountedText | packages/runtime/src/__tests__/destroy-dom.test.js:10-21 | the destroy test's mounted `"helloWorld"` text node cannot be destroyed as written |
| DestroyDom.RemoveEventListeners | packages/runtime/src/destroy-dom.js:49 | every recorded `(event, handler)` pair is removed from the element's listener table, and nothing else changes |
| DestroyDom.RemoveTextNode | packages/runtime/src/destroy-dom.js:34-38 | the method ends in the state of the text case of the destroy specification |
| DestroyDom.RemoveElementNode | packages/runtime/src/destroy-dom.js:40-52 | the method ends in the state of the element case of the destroy specification |
| DestroyDom.DestroyChildNodes | packages/runtime/src/destroy-dom.js:54-60 | the `forEach` over the children ends in the state of the in-order child specification |
| DestroyDom.DestroyDOM | packages/runtime/src/destroy-dom.js:11-32 | the method ends in the state of the destroy specification |
| Dispatching.IndexOf | packages/runtime/src/dispatcher.js:34 | the result is -1 iff the handler is absent; otherwise it is the first position holding it |
| Dispatching.UnsubscribeRemoves | packages/runtime/src/dispatcher.js:33-36 | on a duplicate-free list, the unsubscribe drops exactly that handler and keeps the others in order |
| Dispatching.SubscribeThenUnsubscribe | packages/runtime/src/dispatcher.js:30-36 | subscribing a new handler and calling its unsubscribe restores the list |
| Dispatching.StaleUnsubscribe | packages/runtime/src/dispatcher.js:34-35 | a second call, after the handler is gone, drops the current last handler (`splice(-1, 1)`) |
| Dispatching.UnsubscribeRemovesFirst | packages/runtime/src/dispatcher.js:49-52 | on the after-handler list, which may repeat, the unsubscribe removes one occurrence |
| Dispatching.Dispatcher.constructor | packages/runtime/src/dispatcher.js:8-9 | there are no subscriptions and no after-handlers |
| Dispatching.Dispatcher.Subscribe | packages/runtime/src/dispatcher.js:19-37 | a command gets its list on first use, and the handler is appended. A handler already present changes nothing and gets a no-op unsubscribe. No other command changes, and no list gains a duplicate |
| Dispatching.Dispatcher.AfterEveryCommand | packages/runtime/src/dispatcher.js:45-53 | the handler is always appended, even if already present |
| Dispatching.Dispatcher.CallUnsubscribe | packages/runtime/src/dispatcher.js:33-36 | an unsubscribe splices the first occurrence, or the last handler when the handler is absent. Command entries are never deleted |
| Dispatching.Dispatcher.Dispatch | packages/runtime/src/dispatcher.js:64-72 | it calls the command's handlers with the payload in list order, then every after-handler with no argument. It warns iff the command was never subscribed to |
| TicTacToe.Opponent | examples/ch06/tic-tac-toe/index.js:39 | the next player is always the other one |
| TicTacToe.LinesByKind | examples/ch06/tic-tac-toe/index.js:81-101 | on a 3×3 board, a row, a column and the two diagonals are the corresponding winning lines of the cell numbering |
| TicTacToe.WinnerCheckIsExact | examples/ch06/tic-tac-toe/index.js:53-61 | a player wins iff one of the three rows, three columns or two diagonals is all theirs |
| TicTacToe.WinsAsWrittenIgnoresColumns | examples/ch06/tic-tac-toe/index.js:63-101 | the check as written holds iff a row or a diagonal is complete; its column test repeats the row test |
| TicTacToe.ColumnWinMissed | examples/ch06/tic-tac-toe/index.js:86-89 | a board with a complete column of X is a win that the check as written misses |
| TicTacToe.CheckWinner | examples/ch06/tic-tac-toe/index.js:63-79 | the loop with early returns yields the player iff the as-written row, column or diagonal test succeeds, else null |
| TicTacToe.CheckWinnerCorrected | examples/ch06/tic-tac-toe/index.js:63-79 | with the column test fixed, the loop yields the player iff they have a complete line |
| TicTacToe.MarkReducer | examples/ch06/tic-tac-toe/index.js:24-49 | the reducer returns exactly the as-written specification: its guard, its occupied check, the copied board, the next player, winner and draw |
| TicTacToe.MarkLegalMove | examples/ch06/tic-tac-toe/index.js:36-41 | a move onto an empty cell in range is accepted. Only that cell changes, to the mover's mark, on a fresh board. The other player is next. The winner is the mover iff the as-written check holds. Draw holds iff there is no winner and the board is full |
| TicTacToe.MarkOccupied | examples/ch06/tic-tac-toe/index.js:31-33 | a move onto a marked cell is rejected as taken |
| TicTacToe.MarkOutside | examples/ch06/tic-tac-toe/index.js:26-28 | a row or column below 0 or above 3 is rejected as off the board |
| TicTacToe.GuardAdmitsThree | examples/ch06/tic-tac-toe/index.js:26-28 | the guard lets 3 through: column 3 grows a row to four cells, and row 3 fails with a `TypeError` |
| TicTacToe.MarkCorrected | examples/ch06/tic-tac-toe/index.js:24-49 | the reducer with the bounds 0 to 2 and the fixed winner check returns exactly the corrected specification |
| TicTacToe.MarkCorrectedMoves | examples/ch06/tic-tac-toe/index.js:24-49 | a move is accepted iff it names an empty cell of the board, and otherwise carries the right error. The board stays 3×3 and only that cell changes. The mover wins iff they have a complete line. Draw holds iff they have none and the board is full |
| Todos.TodoAt | examples/ch06/todos/todos.js:34-35 | `todos[index]` is the todo in range and `undefined` outside it |
| Todos.UpdateCurrentTodo | examples/ch06/todos/todos.js:19-22 | only `currentTodo` changes |
| Todos.AddTodo | examples/ch06/todos/todos.js:24-28 | the current text becomes the last todo, the earlier todos are kept, the input is cleared and the edit record is kept |
| Todos.StartEditingTodo | examples/ch06/todos/todos.js:30-37 | the edit record holds the index, and both texts are `todos[index]`; nothing else changes |
| Todos.EditTodo | examples/ch06/todos/todos.js:39-45 | only the edited text changes |
| Todos.SaveEditedTodo | examples/ch06/todos/todos.js:47-60 | the edited text is written at the index and every other todo is kept. An index one past the end appends. A null, undefined or negative index leaves the list as it was. The edit record is reset |
| Todos.CancelEditingTodo | examples/ch06/todos/todos.js:62-69 | the edit record is reset and the todos are untouched |
| Todos.RemoveTodo | examples/ch06/todos/todos.js:71-74 | the input text and the edit record are kept |
| Todos.RemoveTodoEffect | examples/ch06/todos/todos.js:73 | an index in range drops exactly that todo and keeps the rest in order; any other index leaves the list unchanged |
| Todos.AddThenRemove | examples/ch06/todos/todos.js:24-74 | adding a todo and then removing the last one restores the list |
| Todos.EditRoundTrip | examples/ch06/todos/todos.js:30-60 | start editing, type, then save: exactly that todo is replaced by the typed text |
| Todos.StartThenSave | examples/ch06/todos/todos.js:30-60 | start editing, then save without typing: the list is unchanged |
| Todos.StartThenCancel | examples/ch06/todos/todos.js:30-69 | start editing, then cancel: only the edit record is reset |

## Left out

- Reconciliation and patching: `patch-dom.js` is not part of this model, and `createApp` in packages/runtime/src/app.js is wiring around it.
- packages/runtime/src/events.js: listener registration is not modelled. Listener removal is an operation on the host listener table. `removeEventListeners` is imported by destroy-dom.js but is missing from events.js, so it is modelled as removing each recorded pair.
- The browser DOM: text nodes, elements, `classList` exceptions and the reflection between properties and attributes. The host is the abstract arena described above.
- `console.warn`: the warning becomes a returned flag. For a failed property write it is the host's `nullRejecting` set of names.
- examples/ch02/todos.js, the view builders of the example apps, rollup.config.mjs, and the tests as code. The tests serve only as evidence for the lemmas cited above.
- `utils/assert.js` and `toArray` are not part of this model.
- Vnode aliasing: a vnode object shared by two places of a tree has one `el` in JavaScript. Here each path has its own slot.
- Handler bodies: handlers are tokens. What a handler does when called, including re-entrant subscribe and unsubscribe during `dispatch`, is not modelled.
- Attributes.ClassNameFor: requires class-list tokens to be non-empty and free of ASCII whitespace, because the host's `classList.add` throws on any other token.
- Attributes.SetClass: carries the same requirement.
- Attributes.SetAttributes: carries the same requirement.
- Attributes.StyleEntries: a truthy `style` that is not an object contributes no entries. JavaScript's `for…in` would enumerate the indices of a string's characters or of an array's items.
- Objects.ObjectsDiff: objects are entry lists and value equality stands in for `!==`. Two distinct objects with equal contents count as unchanged here.
- Objects.ObjectsDiff: `in` is own-key membership. Keys inherited from `Object.prototype` (such as `toString`) are treated as absent.
- DestroyDom.DestroySpec: an `el` whose id is not in the host arena is treated like a missing `el` (a `TypeError`).
- DestroyDom.DestroyDOM: takes the vnode through its path in a `VTree`. It follows the helpers' intended signatures; the call as written is `DestroyDom.DestroyAsWritten`.
- MountDom.MountDOM: requires a given parent to be an element; appending to a text node is outside the host model.
- Dispatching.Dispatcher.CallUnsubscribe: requires a command unsubscribe to name a command that has a list. This always holds, since lists are never deleted.
- TicTacToe.MarkReducer: requires a board of three rows, each of at least three cells, as every reachable state has.
- TicTacToe.CheckWinner: carries the same requirement.
- Todos.SaveEditedTodo: requires the edited text to be a string when the index is in range or one past the end. It excludes indexes more than one past the end, which make a sparse array with holes. A non-integer index is not modelled.

## Findings

| source | as written | input that shows it | evidently intended | confidence | as-written member | corrected member |
|---|---|---|---|---|---|---|
| packages/runtime/src/destroy-dom.js:16-24 | `removeTextNode()`, `removeElementNode()` and `removeFragmentNode()` are called without `vdom`, so each helper destructures `undefined` | `destroyDOM(hString("helloWorld"))` after mounting it into the body | pass `vdom` to each helper | high (not executed) | DestroyDom.DestroyAsWrittenFailsOnMountedText | DestroyDom.DestroyUnmounts |
| examples/ch06/tic-tac-toe/index.js:26 | the guard rejects only `row > 3` and `col > 3` | `{row: 0, col: 3}` is accepted and grows row 0 to four cells; `{row: 3, col: 0}` throws a `TypeError` instead of the off-board error | reject anything above 2 | high (not executed) | TicTacToe.GuardAdmitsThree | TicTacToe.MarkCorrectedMoves |
| examples/ch06/tic-tac-toe/index.js:86-89 | `checkCol` reads `board[index]`, a row, so column wins are never detected | X in the whole first column: `[[X,O,_],[X,O,_],[X,_,_]]` | read `board[r][index]` for each row r | high (not executed) | TicTacToe.ColumnWinMissed | TicTacToe.WinnerCheckIsExact |
