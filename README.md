# Kanban board of the reflex-dnd demo, in Dafny

The demo application (`dnd_demo/dnd_demo/dnd_demo.py`) keeps a kanban board in its
`State`: the dictionary `items` maps a list name to the ordered list of its
`Item(key, text)` cards. Drag-and-drop events arrive as `DropResult` payloads
(`custom_components/reflex_dnd/dnd.py`). Three handlers change the board in place:

- `on_drag_end` pops the dragged card from its source list and inserts it into the
  destination list, creating that list if needed;
- `add_item` appends a new card;
- `remove_item` deletes the first card with a given key.

A handler that changes the board asks for it to be saved and, except for a move within
one list, first shows a toast offering an "Undo" action (a success toast for a move or
an add, a warning toast for a removal). A cancelled drag and an unknown key return
nothing. A source index that `pop` rejects gives an error toast and no save.
`load_items` restores a saved board and announces it with an info toast.

The project has these parts:

- `wrappers.dfy`: `Option`.
- `dnd.dfy` (module `Dnd`): the payload shapes `DraggableLocation`, `Combine` and
  `DropResult`.
- `pylist.dfy` (module `PyList`): the Python list operations the handlers rely on,
  with Python's index rules:
  - `pop(i)` wraps a negative index and raises `IndexError` out of range;
  - `insert(i, x)` clamps the index to the ends;
  - `remove(x)` drops the first equal element.
- `kanban.dfy` (module `Kanban`): the board as a value and each handler as a function.
  - `Board` keeps the dictionary's insertion order next to the map, because
    `remove_item` scans lists in that order and `setdefault` appends a new list at its end.
  - A handler's result is an `Outcome`: the new board and a `Reply`. A `Reply` is
    nothing, an error toast, an info toast, or "saved", with the undo action the toast
    offers.
- `demo_state.dfy` (module `DemoState`): the `State` class. Its `order`/`items` fields
  are updated in place by methods that follow the handlers statement by statement.
  Each board handler (`OnDragEnd`, `AddItem`, `RemoveItem`, and `GetListItems` for
  `setdefault`) is proved to produce exactly the outcome of the matching `Kanban`
  function. `LoadItems` has no such counterpart; its contract states the new board and
  reply directly. `remove_item`'s nested scan is a pair of `while` loops, proved to stop at
  the same card as `Kanban.FindKey`.
- `kanban_properties.dfy` (module `KanbanProperties`): what the handlers guarantee.
  - where a moved card lands, and that other lists are untouched;
  - that no card is lost or duplicated;
  - that each undo action restores the board;
  - that keys stay unique.

## Model

| member | source | states |
|---|---|---|
| Dnd.DropResult | custom_components/reflex_dnd/dnd.py:7-41 | the drop payload: draggable id, type, source location, mode, optional destination, optional combine, reason |
| PyList.PopIndex | dnd_demo/dnd_demo/dnd_demo.py:50-52 | `pop(i)` on a list of length n succeeds exactly when -n <= i < n, and then removes position i or i + n; otherwise it raises IndexError |
| PyList.InsertIndex | dnd_demo/dnd_demo/dnd_demo.py:53-55 | `insert(i, x)` places x at i when 0 <= i <= n, at the end when i > n, at i + n for a negative i down to -n, and at the front below that |
| PyList.Insert | dnd_demo/dnd_demo/dnd_demo.py:53-55 | the inserted list is one longer, holds x at the insertion position, keeps the elements before it and shifts the rest up; as a multiset it gains exactly x |
| PyList.Without | dnd_demo/dnd_demo/dnd_demo.py:50 | the popped list is one shorter, keeps the elements before position k and shifts the later ones down; as a multiset it loses exactly the popped element |
| PyList.RemoveFirst | dnd_demo/dnd_demo/dnd_demo.py:90 | `remove(x)` shortens the list by one and removes exactly one copy of x |
| PyList.RemoveFirstAt | dnd_demo/dnd_demo/dnd_demo.py:90 | `remove(x)` drops exactly the element at the first position holding x |
| PyList.InsertWithout | dnd_demo/dnd_demo/dnd_demo.py:50-55 | inserting a popped element back at its non-negative position restores the list |
| PyList.WithoutInsert | dnd_demo/dnd_demo/dnd_demo.py:50-55 | popping at the position where an element was inserted, with a non-negative in-range index, returns that element and restores the list |
| Kanban.Item | dnd_demo/dnd_demo/dnd_demo.py:9-11 | a card: its key and its display text |
| Kanban.Board | dnd_demo/dnd_demo/dnd_demo.py:18 | the `items` dictionary from list name to cards, with the dictionary's insertion order kept as `order` |
| Kanban.Swapped | dnd_demo/dnd_demo/dnd_demo.py:62-64 | the undo payload is the drop result with source and destination exchanged and every other field kept |
| Kanban.Undo | dnd_demo/dnd_demo/dnd_demo.py:59-100 | the event a toast's "Undo" button dispatches: `on_drag_end` with a drop result (lines 61-65), `remove_item` of a key (line 79), `add_item` of a list name and text (lines 95-100) |
| Kanban.Reply | dnd_demo/dnd_demo/dnd_demo.py:33-105 | what a handler returns: nothing (the implicit `None` after line 48 and after the loop of lines 87-105), the error toast of line 52, the info toast of line 33, or `State.save_items` (lines 70, 84, 105) preceded by the undo toast it carries, if any |
| Kanban.Outcome | dnd_demo/dnd_demo/dnd_demo.py:46-105 | a handler's effect: the board it leaves and the reply it returns |
| Kanban.SetDefault | dnd_demo/dnd_demo/dnd_demo.py:21-22 | `setdefault(name, [])` creates a missing list empty, at the end of the dictionary's order; an existing list and all other lists are untouched |
| Kanban.Move | dnd_demo/dnd_demo/dnd_demo.py:50-55 | a successful move replaces the source list by the popped list, then the destination list (created if missing, and seen after the pop when it is the same list) by the insertion of the popped card; the dictionary order is that of `setdefault` on the destination |
| Kanban.DragEnd | dnd_demo/dnd_demo/dnd_demo.py:46-70 | no destination: board unchanged, no reply; an index `pop` rejects: the "Invalid source index moving item" error and no change (exactly in that case); otherwise, and exactly then, a save of the moved board, with an undo toast carrying the swapped payload exactly when source and destination lists differ |
| Kanban.AddItem | dnd_demo/dnd_demo/dnd_demo.py:72-84 | the new card is appended at the end of the named list (created if missing), every other list is unchanged, and the undo is `remove_item` of the new key |
| Kanban.IndexOfKey | dnd_demo/dnd_demo/dnd_demo.py:88-89 | the first position in a list holding the key, or none when no card has it |
| Kanban.FindKey | dnd_demo/dnd_demo/dnd_demo.py:87-89 | the first card with the key, scanning lists in dictionary order and each list front to back; none exactly when no list holds the key |
| Kanban.RemoveItem | dnd_demo/dnd_demo/dnd_demo.py:86-105 | an unknown key changes nothing and replies nothing; otherwise only the found card leaves its list, the order of the rest is kept, and the undo adds its text back to that list |
| Kanban.FindKeyIsFirst | dnd_demo/dnd_demo/dnd_demo.py:87-90 | a position with the key and no earlier match in scan order is where the scan stops |
| Kanban.RemoveItemAt | dnd_demo/dnd_demo/dnd_demo.py:86-105 | `remove_item` when the scan stops at a given list and position pops exactly that position and offers that card's text back |
| DemoState.State.constructor | dnd_demo/dnd_demo/dnd_demo.py:18 | the board starts empty |
| DemoState.State.GetListItems | dnd_demo/dnd_demo/dnd_demo.py:21-22 | the in-place `setdefault` leaves the board `Kanban.SetDefault` describes and returns the named list |
| DemoState.State.LoadItems | dnd_demo/dnd_demo/dnd_demo.py:24-35 | a non-empty store that decodes replaces the board and answers "Locked and loaded from LocalStorage!"; an empty store or a decoding failure changes nothing |
| DemoState.State.OnDragEnd | dnd_demo/dnd_demo/dnd_demo.py:46-70 | the in-place pop and insert leave exactly the board and reply of `Kanban.DragEnd` |
| DemoState.State.AddItem | dnd_demo/dnd_demo/dnd_demo.py:72-84 | the in-place append leaves exactly the board and reply of `Kanban.AddItem` |
| DemoState.State.Locate | dnd_demo/dnd_demo/dnd_demo.py:87-89 | the nested loops over lists and cards stop at the card `Kanban.FindKey` reports, or at none |
| DemoState.State.RemoveItem | dnd_demo/dnd_demo/dnd_demo.py:86-105 | the scan and in-place `remove` leave exactly the board and reply of `Kanban.RemoveItem` |
| KanbanProperties.GatherUpdate | dnd_demo/dnd_demo/dnd_demo.py:18 | replacing one list's cards swaps exactly those cards in the board's contents |
| KanbanProperties.SetDefaultContents | dnd_demo/dnd_demo/dnd_demo.py:21-22 | `setdefault` neither adds nor removes cards |
| KanbanProperties.DragEndPlacement | dnd_demo/dnd_demo/dnd_demo.py:50-55 | the moved card sits in the destination list at the destination index, or at the end when that index is past it, between the list's other cards in their order; the source list has lost exactly the popped card; in a move within one list the index counts in the list after the pop |
| KanbanProperties.DragEndFrame | dnd_demo/dnd_demo/dnd_demo.py:21-22 | a move changes no list other than source and destination, and adds no list except the destination, which is created rather than refused; a cancelled or rejected drag changes no list |
| KanbanProperties.DragEndConserves | dnd_demo/dnd_demo/dnd_demo.py:50-55 | every drag end keeps the multiset of cards, hence the total card count |
| KanbanProperties.MoveConserves | dnd_demo/dnd_demo/dnd_demo.py:50-55 | a move keeps the multiset of cards |
| KanbanProperties.DragEndSameIndex | dnd_demo/dnd_demo/dnd_demo.py:50-55 | dropping a card at the non-negative index it was taken from leaves the board as it was (and saves it, without undo) |
| KanbanProperties.SwappedTwice | dnd_demo/dnd_demo/dnd_demo.py:62-64 | swapping source and destination twice gives back the drop result |
| KanbanProperties.DragEndUndo | dnd_demo/dnd_demo/dnd_demo.py:56-66 | a cross-list move offers the swapped drop result as undo; applying it restores the board, leaving only an empty destination list the move created, and its own undo is the original move |
| KanbanProperties.MoveBack | dnd_demo/dnd_demo/dnd_demo.py:50-55 | moving from (S, i) to (D, j) and back from (D, j) to (S, i) gives the original board after `setdefault(D)` |
| KanbanProperties.AddItemContents | dnd_demo/dnd_demo/dnd_demo.py:72-74 | adding a card adds exactly that card to the board's contents |
| KanbanProperties.AddItemUndo | dnd_demo/dnd_demo/dnd_demo.py:72-84 | with a fresh key, the undo `remove_item(key)` restores the board, leaving only an empty list the add created, and offers to add the same text to the same list again |
| KanbanProperties.RemoveItemContents | dnd_demo/dnd_demo/dnd_demo.py:86-90 | `remove_item` takes out at most one card: the found one, lowering the count by one; an unknown key changes no card |
| KanbanProperties.RemoveItemUndo | dnd_demo/dnd_demo/dnd_demo.py:91-101 | the undo `add_item` puts a card with the removed text at the end of the list it came from; every other list is unchanged |
| KanbanProperties.RemoveItemUndoContents | dnd_demo/dnd_demo/dnd_demo.py:91-101 | removing a card and undoing trades that card for one with the same text under the new key; no other card changes |
| KanbanProperties.RemoveItemUndoRestoresLast | dnd_demo/dnd_demo/dnd_demo.py:86-101 | removing the last card of a list and undoing with the same key restores the board exactly |
| KanbanProperties.DragEndKeepsKeysUnique | dnd_demo/dnd_demo/dnd_demo.py:46-55 | a drag end keeps every key on at most one card |
| KanbanProperties.AddItemKeepsKeysUnique | dnd_demo/dnd_demo/dnd_demo.py:72-74 | adding under a fresh key keeps every key on at most one card |
| KanbanProperties.RemoveItemKeepsKeysUnique | dnd_demo/dnd_demo/dnd_demo.py:86-90 | removing keeps keys unique, and when keys are unique no card with the removed key is left |
| KanbanProperties.DragEndExample | dnd_demo/dnd_demo/dnd_demo.py:46-55 | moving the only card of list A to the front of an empty list B leaves A empty, still present, and B holding the card |

## Left out

- `save_items` and the JSON encoding and decoding in `load_items` are library calls and
  browser storage. A save is the `Saved` reply. Decoding comes into
  `State.LoadItems` as a parameter, where None stands for the `ValueError` that line 34
  catches.
- DemoState.State.LoadItems: does not model the uncaught exceptions of `load_items`.
  A stored value that decodes to something other than a JSON object (`[]`, `null`)
  raises `AttributeError` at line 31, and a card that is not a JSON object raises
  `TypeError` at line 30. Neither is caught at line 34, so the handler fails. The
  `decoded` parameter only has a board or `None`, so these cases cannot be expressed.
- `uuid.uuid4()` is a parameter: `key` of `AddItem`. The class method and the undo
  lemmas require it to be fresh (`KeyAbsent`), which is what a random uuid4 is taken
  to guarantee.
- Toast rendering and the toast texts that embed card text ("Moved …", "Created …",
  "Removed …") are left out, and so are `on_close` printing, the view functions, the
  app setup and the `lists` field that only names the columns shown. The replies keep
  the error and info messages and the undo action of each toast.
- The framework's generator and `yield` dispatch is left out. A handler's toast and
  its save request become one returned `Reply`.
- `DraggableRubric`, `DragStart` and `DragUpdate` are not separate types. Their fields
  are flattened into `Dnd.DropResult`, and the field `type` is called `dragType`
  because `type` is a Dafny keyword.
- A missing source list in `on_drag_end` is not handled by the source (line 50 raises
  `KeyError`). It is a precondition of `Kanban.DragEnd` and `State.OnDragEnd`, and only
  when a destination is present.
- The React component wrappers and JSX rendering in `custom_components/reflex_dnd/dnd.py`
  are UI bindings with no behaviour of their own.
- KanbanProperties.DragEndUndo: stated for non-negative indices with the destination
  index inside the destination list.
  - A negative or clamped index need not be the place the swapped payload names.
  - For such an index the undo need not put the card back. It does in some cases,
    such as a source index of -2 in a two-card list.
- KanbanProperties.DragEndSameIndex: stated for a non-negative index only. Python's
  `insert(-1, x)` puts x before the last element. So in a list of two or more cards,
  dropping at index -1 can move the card. In a one-card list the card stays put.
- PyList.PopIndex: indices are unbounded integers. CPython's `pop` raises
  `OverflowError` for an index of 2^63 or more in absolute value. Line 51 does not
  catch it, so the handler fails. The model instead answers with the caught
  `IndexError` path: `Rejected(InvalidSourceIndex)` in `Kanban.DragEnd`.
- PyList.InsertIndex: indices are unbounded integers. CPython's `insert` raises
  `OverflowError` for an index of 2^63 or more in absolute value, where the model
  clamps.
  - In `on_drag_end` the `pop` at line 50 has already succeeded by then.
  - So in the source the popped card is on no list and nothing is saved.
  - `Kanban.DragEnd` instead places the card and saves.
  - `KanbanProperties.DragEndConserves` therefore describes the source only for
    indices inside that range. For a larger destination index, the source loses the
    card.
- KanbanProperties.RemoveItemUndoRestoresLast: the exact restoration is stated only
  for the last card of its list. The undo appends, so a card taken from the middle
  comes back at the end, under a new key. `RemoveItemUndo` states that general case.
