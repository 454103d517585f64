/** The kanban board of the demo application (dnd_demo/dnd_demo/dnd_demo.py)
    as values: the board, the three handlers that change it and the replies
    they hand back to the framework (toasts with their undo actions, and the
    request to persist the board). The class in demo_state.dfy performs the
    same handlers in place and is proved equal to these functions. */
module Kanban {
  import opened Wrappers
  import opened Dnd
  import PyList

  /** A card on the board: a unique key and its display text. */
  datatype Item = Item(key: string, text: string)

  /** The `items` dictionary: list name to its items, in visual order. A Python
      dict iterates in insertion order, and `remove_item` depends on that
      order, so the board keeps it in `order`. */
  datatype Board = Board(order: seq<string>, lists: map<string, seq<Item>>)

  predicate Distinct(names: seq<string>)
  {
    forall i, j :: 0 <= i < j < |names| ==> names[i] != names[j]
  }

  /** `order` lists every key of the dictionary exactly once. */
  ghost predicate Valid(b: Board)
  {
    Distinct(b.order) && forall n :: n in b.lists <==> n in b.order
  }

  /** The items of a list, or none when the list does not exist. */
  function Get(lists: map<string, seq<Item>>, name: string): seq<Item>
  {
    if name in lists then lists[name] else []
  }

  predicate NoKey(s: seq<Item>, key: string)
  {
    forall m :: 0 <= m < |s| ==> s[m].key != key
  }

  /** No list holds an item with this key: what a freshly generated uuid4
      key is taken to guarantee. */
  predicate KeyAbsent(b: Board, key: string)
  {
    forall n :: n in b.lists ==> NoKey(b.lists[n], key)
  }

  /** The action a toast's "Undo" button dispatches. */
  datatype Undo =
    | MoveUndo(result: DropResult)          // on_drag_end with the given payload
    | RemoveUndo(key: string)               // remove_item(key)
    | AddUndo(listName: string, text: string) // add_item({"list_name": .., "item": ..})

  /** What a handler hands back to the framework. The toast that offers an
      undo is a success toast for a move or an add, a warning toast for a
      removal; its text is not modelled. */
  datatype Reply =
    | Ignored                   // returns nothing: no toast, no save
    | Rejected(message: string) // an error toast, no save
    | Loaded(message: string)   // an info toast, no save
    | Saved(undo: Option<Undo>) // save_items; Some: first a toast offering this undo, None: no toast

  datatype Outcome = Outcome(board: Board, reply: Reply)

  const InvalidSourceIndex := "Invalid source index moving item"
  const LoadedMessage := "Locked and loaded from LocalStorage!"

  /** The items of every list, as a multiset. */
  ghost function Gather(order: seq<string>, lists: map<string, seq<Item>>): multiset<Item>
    decreases |order|
  {
    if order == [] then multiset{}
    else multiset(Get(lists, order[0])) + Gather(order[1..], lists)
  }

  ghost function Contents(b: Board): multiset<Item>
  {
    Gather(b.order, b.lists)
  }

  /** Each key names at most one item on the board. */
  ghost predicate UniqueKeys(c: multiset<Item>)
  {
    && (forall x :: x in c ==> c[x] == 1)
    && (forall x, y :: x in c && y in c && x.key == y.key ==> x == y)
  }

  /** `_get_list_items`: `setdefault(name, [])`. A missing list is created
      empty and goes to the end of the dictionary's order; nothing else
      changes. */
  function SetDefault(b: Board, name: string): (r: Board)
    requires Valid(b)
    ensures Valid(r)
    ensures r.lists == b.lists[name := Get(b.lists, name)]
    ensures r.order == if name in b.lists then b.order else b.order + [name]
  {
    if name in b.lists then
      assert b.lists == b.lists[name := b.lists[name]];
      b
    else Board(b.order + [name], b.lists[name := []])
  }

  /** The board with an existing list's items replaced (Python mutates the
      list object in place; the dictionary keeps its keys and order). */
  function Put(b: Board, name: string, s: seq<Item>): (r: Board)
    requires Valid(b) && name in b.lists
    ensures Valid(r) && r.order == b.order && r.lists == b.lists[name := s]
  {
    assert b.lists[name := s].Keys == b.lists.Keys;
    b.(lists := b.lists[name := s])
  }

  /** The undo payload of a cross-list move: the same drop result with
      source and destination swapped, every other field kept. */
  function Swapped(r: DropResult): (u: DropResult)
    requires r.destination.Some?
    ensures u.source == r.destination.value && u.destination == Some(r.source)
    ensures u.(source := r.source, destination := r.destination) == r
  {
    r.(source := r.destination.value, destination := Some(r.source))
  }

  /** The successful part of `on_drag_end`: the item at position k of the
      source list is popped, then inserted into the destination list (created
      if missing) at the destination index as Python's `insert` places it.
      For a move within one list that index applies to the list after the pop. */
  function Move(b: Board, src: string, k: nat, dst: DraggableLocation): (r: Board)
    requires Valid(b) && src in b.lists && k < |b.lists[src]|
    ensures Valid(r)
    ensures r.order == SetDefault(b, dst.droppableId).order
    ensures var popped := b.lists[src := PyList.Without(b.lists[src], k)];
      r.lists == popped[dst.droppableId :=
        PyList.Insert(Get(popped, dst.droppableId), dst.index, b.lists[src][k])]
  {
    var from := b.lists[src];
    var popped := Put(b, src, PyList.Without(from, k));
    var b2 := SetDefault(popped, dst.droppableId);
    Put(b2, dst.droppableId, PyList.Insert(b2.lists[dst.droppableId], dst.index, from[k]))
  }


  /** `on_drag_end`. A cancelled drag changes nothing. Otherwise the source
      list must exist (the handler indexes the dictionary directly, so a
      missing one is an uncaught KeyError); an index `pop` rejects gives an
      error toast and no change; else the item moves and the board is saved,
      with an undo toast when it changed lists. */
  function DragEnd(b: Board, r: DropResult): (o: Outcome)
    requires Valid(b)
    requires r.destination.Some? ==> r.source.droppableId in b.lists
    ensures Valid(o.board)
    ensures r.destination.None? ==> o == Outcome(b, Ignored)
    ensures o.reply.Rejected? <==>
      r.destination.Some? && PyList.PopIndex(r.source.index, |b.lists[r.source.droppableId]|).None?
    ensures o.reply.Rejected? ==> o == Outcome(b, Rejected(InvalidSourceIndex))
    ensures o.reply.Saved? <==>
      r.destination.Some? && PyList.PopIndex(r.source.index, |b.lists[r.source.droppableId]|).Some?
    ensures o.reply.Saved? ==>
      var src, dst := r.source.droppableId, r.destination.value.droppableId;
      && o.board == Move(b, src, PyList.PopIndex(r.source.index, |b.lists[src]|).value, r.destination.value)
      && o.reply.undo == (if src != dst then Some(MoveUndo(Swapped(r))) else None)
  {
    if r.destination.None? then Outcome(b, Ignored)
    else
      var src, dst := r.source, r.destination.value;
      match PyList.PopIndex(src.index, |b.lists[src.droppableId]|)
      case None => Outcome(b, Rejected(InvalidSourceIndex))
      case Some(k) =>
        Outcome(Move(b, src.droppableId, k, dst),
                Saved(if src.droppableId != dst.droppableId then Some(MoveUndo(Swapped(r))) else None))
  }

  /** `add_item` with the generated key given as a parameter: the new item is
      appended to the named list, which is created if missing. The undo
      removes it again by key. */
  function AddItem(b: Board, listName: string, text: string, key: string): (o: Outcome)
    requires Valid(b)
    ensures Valid(o.board)
    ensures o.board.order == SetDefault(b, listName).order
    ensures o.board.lists == b.lists[listName := Get(b.lists, listName) + [Item(key, text)]]
    ensures o.reply == Saved(Some(RemoveUndo(key)))
  {
    var b1 := SetDefault(b, listName);
    Outcome(Put(b1, listName, b1.lists[listName] + [Item(key, text)]), Saved(Some(RemoveUndo(key))))
  }

  /** The first position in s holding an item with this key. */
  function IndexOfKey(s: seq<Item>, key: string): (r: Option<nat>)
    ensures r.Some? ==> r.value < |s| && s[r.value].key == key && NoKey(s[..r.value], key)
    ensures r.None? ==> NoKey(s, key)
    decreases |s|
  {
    if s == [] then None
    else if s[0].key == key then Some(0)
    else match IndexOfKey(s[1..], key)
      case None => None
      case Some(j) => Some(j + 1)
  }

  /** Where `remove_item`'s scan stops: the position in `order` of the list
      and the position in that list of the item. */
  datatype Found = Found(slot: nat, index: nat)

  /** The first item with this key, scanning lists in dictionary order and
      each list front to back. */
  function FindKey(order: seq<string>, lists: map<string, seq<Item>>, key: string): (r: Option<Found>)
    ensures r.Some? ==>
      && r.value.slot < |order|
      && r.value.index < |Get(lists, order[r.value.slot])|
      && Get(lists, order[r.value.slot])[r.value.index].key == key
      && (forall m :: 0 <= m < r.value.slot ==> NoKey(Get(lists, order[m]), key))
      && NoKey(Get(lists, order[r.value.slot])[..r.value.index], key)
    ensures r.None? ==> forall m :: 0 <= m < |order| ==> NoKey(Get(lists, order[m]), key)
    decreases |order|
  {
    if order == [] then None
    else match IndexOfKey(Get(lists, order[0]), key)
      case Some(j) => Some(Found(0, j))
      case None =>
        match FindKey(order[1..], lists, key)
        case None => None
        case Some(f) => Some(Found(f.slot + 1, f.index))
  }

  /** `remove_item`: the first item with the key, in scan order, is taken
      out of its list and the undo offers to add its text back to that list.
      An unknown key changes nothing and replies nothing. */
  function RemoveItem(b: Board, key: string): (o: Outcome)
    requires Valid(b)
    ensures Valid(o.board) && o.board.order == b.order
    ensures FindKey(b.order, b.lists, key).None? ==> o == Outcome(b, Ignored)
    ensures FindKey(b.order, b.lists, key).Some? ==>
      var f := FindKey(b.order, b.lists, key).value;
      var name := b.order[f.slot];
      && o.board.lists == b.lists[name := PyList.Without(b.lists[name], f.index)]
      && o.reply == Saved(Some(AddUndo(name, b.lists[name][f.index].text)))
  {
    match FindKey(b.order, b.lists, key)
    case None => Outcome(b, Ignored)
    case Some(f) =>
      var name := b.order[f.slot];
      var s := b.lists[name];
      Outcome(Put(b, name, PyList.Without(s, f.index)), Saved(Some(AddUndo(name, s[f.index].text))))
  }

  /** A position whose item has the key, with no such item before it in scan
      order, is the one FindKey reports. */
  lemma FindKeyIsFirst(order: seq<string>, lists: map<string, seq<Item>>, key: string, i: nat, j: nat)
    requires i < |order| && j < |Get(lists, order[i])| && Get(lists, order[i])[j].key == key
    requires forall m :: 0 <= m < i ==> NoKey(Get(lists, order[m]), key)
    requires NoKey(Get(lists, order[i])[..j], key)
    ensures FindKey(order, lists, key) == Some(Found(i, j))
  {
  }

  /** `remove_item` when the scan stops at list `order[slot]`, position `index`. */
  lemma RemoveItemAt(b: Board, key: string, slot: nat, index: nat)
    requires Valid(b) && slot < |b.order| && index < |b.lists[b.order[slot]]|
    requires b.lists[b.order[slot]][index].key == key
    requires forall m :: 0 <= m < slot ==> NoKey(b.lists[b.order[m]], key)
    requires NoKey(b.lists[b.order[slot]][..index], key)
    ensures var name := b.order[slot];
      RemoveItem(b, key) ==
        Outcome(Put(b, name, PyList.Without(b.lists[name], index)), Saved(Some(AddUndo(name, b.lists[name][index].text))))
  {
    FindKeyIsFirst(b.order, b.lists, key, slot, index);
  }
}
