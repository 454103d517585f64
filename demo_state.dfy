/** The demo application's `State` (dnd_demo/dnd_demo/dnd_demo.py): the
    `items` dictionary as fields that the handlers update in place. The board
    handlers are proved to leave the board, and hand back the reply, that a
    Kanban function describes: GetListItems that of SetDefault, OnDragEnd that
    of DragEnd, AddItem and RemoveItem those of their namesakes. LoadItems has
    no such counterpart; its contract states its outcome directly. */
module DemoState {
  import opened Wrappers
  import opened Dnd
  import opened Kanban
  import PyList

  class State {
    /** The dictionary's keys in insertion order. */
    var order: seq<string>
    /** The dictionary itself: list name to its items. */
    var items: map<string, seq<Item>>

    ghost predicate Valid()
      reads this
    {
      Kanban.Valid(Board(order, items))
    }

    /** The board as a value. */
    function Snapshot(): Board
      reads this
    {
      Board(order, items)
    }

    /** The class default `items = {}`. */
    constructor ()
      ensures Valid() && Snapshot() == Board([], map[])
    {
      order := [];
      items := map[];
    }

    /** `_get_list_items`: `setdefault(name, [])`, returning the list. */
    method GetListItems(name: string) returns (s: seq<Item>)
      requires Valid()
      modifies this
      ensures Valid() && Snapshot() == SetDefault(old(Snapshot()), name)
      ensures name in items && s == items[name]
    {
      if name !in items {
        order := order + [name];
        items := items[name := []];
      }
      s := items[name];
    }

    /** `load_items`. Decoding the stored JSON is a library call, so its
        result comes in as `decoded`: None where decoding raised ValueError.
        An empty store or a failed decode leaves the board as it is. */
    method LoadItems(json: string, decoded: Option<Board>) returns (reply: Reply)
      requires Valid()
      requires decoded.Some? ==> Kanban.Valid(decoded.value)
      modifies this
      ensures Valid()
      ensures json != "" && decoded.Some? ==> Snapshot() == decoded.value && reply == Loaded(LoadedMessage)
      ensures json == "" || decoded.None? ==> Snapshot() == old(Snapshot()) && reply == Ignored
    {
      reply := Ignored;
      if json != "" {
        match decoded {
          case Some(b) =>
            order, items := b.order, b.lists;
            reply := Loaded(LoadedMessage);
          case None =>
        }
      }
    }

    /** `on_drag_end`: pop from the source list, insert into the destination
        list, offer an undo for a move between lists. */
    method OnDragEnd(result: DropResult) returns (reply: Reply)
      requires Valid()
      requires result.destination.Some? ==> result.source.droppableId in items
      modifies this
      ensures Valid()
      ensures Outcome(Snapshot(), reply) == DragEnd(old(Snapshot()), result)
    {
      if result.destination.None? {
        return Ignored;
      }
      var src, dst := result.source, result.destination.value;
      var from := items[src.droppableId];
      var k := PyList.PopIndex(src.index, |from|);
      if k.None? {
        return Rejected(InvalidSourceIndex);
      }
      var item := from[k.value];
      items := items[src.droppableId := PyList.Without(from, k.value)];
      assert Kanban.Valid(Snapshot()) by {
        assert items.Keys == old(items).Keys;
      }
      var to := GetListItems(dst.droppableId);
      items := items[dst.droppableId := PyList.Insert(to, dst.index, item)];
      assert Snapshot() == Move(old(Snapshot()), src.droppableId, k.value, dst);
      if src.droppableId != dst.droppableId {
        reply := Saved(Some(MoveUndo(Swapped(result))));
      } else {
        reply := Saved(None);
      }
    }

    /** `add_item`, with the uuid4 key as a parameter that no item has yet:
        append the item to the named list (created if missing) and offer to
        remove it again. */
    method AddItem(listName: string, text: string, key: string) returns (reply: Reply)
      requires Valid()
      requires KeyAbsent(Snapshot(), key)
      modifies this
      ensures Valid()
      ensures Outcome(Snapshot(), reply) == Kanban.AddItem(old(Snapshot()), listName, text, key)
    {
      var item := Item(key, text);
      var s := GetListItems(listName);
      items := items[listName := s + [item]];
      reply := Saved(Some(RemoveUndo(key)));
    }

    /** The scan of `remove_item`: the lists in dictionary order, each list
        front to back, stopping at the first item with the key. */
    method Locate(key: string) returns (hit: Option<Found>)
      requires Valid()
      ensures hit == FindKey(order, items, key)
    {
      var i := 0;
      while i < |order|
        invariant 0 <= i <= |order|
        invariant forall m :: 0 <= m < i ==> NoKey(items[order[m]], key)
      {
        var list := items[order[i]];
        var j := 0;
        while j < |list|
          invariant 0 <= j <= |list|
          invariant NoKey(list[..j], key)
        {
          if list[j].key == key {
            FindKeyIsFirst(order, items, key, i, j);
            return Some(Found(i, j));
          }
          j := j + 1;
        }
        assert list[..j] == list;
        i := i + 1;
      }
      return None;
    }

    /** `remove_item`: remove the first item with the key from its list with
        `list.remove` and offer to add its text back; an unknown key changes
        nothing. */
    method RemoveItem(key: string) returns (reply: Reply)
      requires Valid()
      modifies this
      ensures Valid()
      ensures Outcome(Snapshot(), reply) == Kanban.RemoveItem(old(Snapshot()), key)
    {
      var hit := Locate(key);
      match hit {
        case None =>
          reply := Ignored;
        case Some(f) =>
          var name := order[f.slot];
          var list := items[name];
          var item := list[f.index];
          PyList.RemoveFirstAt(list, item, f.index);
          items := items[name := PyList.RemoveFirst(list, item)];
          reply := Saved(Some(AddUndo(name, item.text)));
      }
    }
  }
}
