/** What the board handlers of dnd_demo/dnd_demo/dnd_demo.py guarantee:
    where a moved item lands, that items are neither lost nor duplicated,
    that each undo action restores the board, and that keys stay unique. */
module KanbanProperties {
  import opened Wrappers
  import opened Dnd
  import opened Kanban
  import PyList

  // ---------------------------------------------------------------------
  // The multiset of all items, under the board's elementary changes
  // ---------------------------------------------------------------------

  /** Only the lists named in `order` contribute items. */
  lemma {:induction false} GatherFrame(order: seq<string>, l1: map<string, seq<Item>>, l2: map<string, seq<Item>>)
    requires forall n :: n in order ==> Get(l1, n) == Get(l2, n)
    ensures Gather(order, l1) == Gather(order, l2)
    decreases |order|
  {
    if order != [] {
      GatherFrame(order[1..], l1, l2);
    }
  }

  /** Replacing one list's items swaps that list's items in the total. */
  lemma {:induction false} GatherUpdate(order: seq<string>, lists: map<string, seq<Item>>, name: string, s: seq<Item>)
    requires Distinct(order) && name in order
    ensures Gather(order, lists[name := s]) + multiset(Get(lists, name)) == Gather(order, lists) + multiset(s)
    decreases |order|
  {
    if order[0] == name {
      forall n | n in order[1..] ensures Get(lists[name := s], n) == Get(lists, n) {
        var m :| 0 <= m < |order[1..]| && order[1..][m] == n;
        assert order[m + 1] == n;
      }
      GatherFrame(order[1..], lists[name := s], lists);
    } else {
      assert Distinct(order[1..]) by {
        forall i, j | 0 <= i < j < |order[1..]| ensures order[1..][i] != order[1..][j] {
          assert order[i + 1] != order[j + 1];
        }
      }
      assert name in order[1..];
      assert Get(lists[name := s], order[0]) == Get(lists, order[0]);
      GatherUpdate(order[1..], lists, name, s);
      var head := multiset(Get(lists, order[0]));
      calc {
        Gather(order, lists[name := s]) + multiset(Get(lists, name));
        head + Gather(order[1..], lists[name := s]) + multiset(Get(lists, name));
        head + (Gather(order[1..], lists[name := s]) + multiset(Get(lists, name)));
        head + (Gather(order[1..], lists) + multiset(s));
        head + Gather(order[1..], lists) + multiset(s);
        Gather(order, lists) + multiset(s);
      }
    }
  }

  /** A name appended to the order adds that list's items. */
  lemma {:induction false} GatherAppend(order: seq<string>, lists: map<string, seq<Item>>, name: string)
    ensures Gather(order + [name], lists) == Gather(order, lists) + multiset(Get(lists, name))
    decreases |order|
  {
    if order == [] {
      assert ([] + [name])[1..] == [];
    } else {
      assert (order + [name])[1..] == order[1..] + [name];
      GatherAppend(order[1..], lists, name);
    }
  }

  /** Lists that hold no item with the key contribute no item with the key. */
  lemma {:induction false} GatherNoKey(order: seq<string>, lists: map<string, seq<Item>>, key: string)
    requires forall m :: 0 <= m < |order| ==> NoKey(Get(lists, order[m]), key)
    ensures forall x :: x in Gather(order, lists) ==> x.key != key
    decreases |order|
  {
    if order != [] {
      assert NoKey(Get(lists, order[0]), key);
      GatherNoKey(order[1..], lists, key);
    }
  }

  /** `setdefault` neither adds nor removes items. */
  lemma SetDefaultContents(b: Board, name: string)
    requires Valid(b)
    ensures Contents(SetDefault(b, name)) == Contents(b)
  {
    if name !in b.lists {
      var r := SetDefault(b, name);
      GatherAppend(b.order, r.lists, name);
      GatherFrame(b.order, r.lists, b.lists);
    }
  }

  lemma PutContents(b: Board, name: string, s: seq<Item>)
    requires Valid(b) && name in b.lists
    ensures Contents(Put(b, name, s)) + multiset(b.lists[name]) == Contents(b) + multiset(s)
  {
    GatherUpdate(b.order, b.lists, name, s);
  }

  /** A fresh key is the key of no item on the board. */
  lemma KeyAbsentContents(b: Board, key: string)
    requires Valid(b) && KeyAbsent(b, key)
    ensures forall x :: x in Contents(b) ==> x.key != key
  {
    GatherNoKey(b.order, b.lists, key);
  }

  // ---------------------------------------------------------------------
  // on_drag_end
  // ---------------------------------------------------------------------

  /** Where the moved item lands: in the destination list at the index
      Python's `insert` picks (the destination index itself when it is within
      the list, the end when it is past it), with the destination list's
      other items around it in their order; the source list has lost exactly
      the popped item. For a move within one list, the destination list is
      the source list after the pop. */
  lemma DragEndPlacement(b: Board, r: DropResult)
    requires Valid(b) && r.destination.Some? && r.source.droppableId in b.lists
    requires PyList.PopIndex(r.source.index, |b.lists[r.source.droppableId]|).Some?
    ensures
      var src, dst := r.source.droppableId, r.destination.value;
      var from := b.lists[src];
      var k := PyList.PopIndex(r.source.index, |from|).value;
      var rest := from[..k] + from[k + 1..];
      var before := if src == dst.droppableId then rest else Get(b.lists, dst.droppableId);
      var after := DragEnd(b, r).board.lists;
      var p := PyList.InsertIndex(dst.index, |before|);
      && dst.droppableId in after
      && after[dst.droppableId] == before[..p] + [from[k]] + before[p..]
      && (0 <= dst.index <= |before| ==> p == dst.index)
      && (|before| < dst.index ==> p == |before|)
      && (src != dst.droppableId ==> after[src] == rest)
  {
    var src, dst := r.source.droppableId, r.destination.value;
    var from := b.lists[src];
    var k := PyList.PopIndex(r.source.index, |from|).value;
    var rest := from[..k] + from[k + 1..];
    assert PyList.Without(from, k) == rest;
    var before := if src == dst.droppableId then rest else Get(b.lists, dst.droppableId);
    assert Get(b.lists[src := rest], dst.droppableId) == before;
    var p := PyList.InsertIndex(dst.index, |before|);
    var t := PyList.Insert(before, dst.index, from[k]);
    assert t == t[..p] + [t[p]] + t[p + 1..];
  }

  /** A move touches only its source and destination lists: every other list
      keeps its items, and the only list that can appear is the destination,
      created rather than refused. A cancelled or rejected drag changes no list. */
  lemma DragEndFrame(b: Board, r: DropResult)
    requires Valid(b)
    requires r.destination.Some? ==> r.source.droppableId in b.lists
    ensures var after := DragEnd(b, r).board.lists;
      && (DragEnd(b, r).reply.Saved? ==> after.Keys == b.lists.Keys + {r.destination.value.droppableId})
      && (!DragEnd(b, r).reply.Saved? ==> after == b.lists)
      && forall n :: (n in b.lists && n != r.source.droppableId &&
                      (r.destination.Some? ==> n != r.destination.value.droppableId)) ==>
           n in after && after[n] == b.lists[n]
  {
    if DragEnd(b, r).reply.Saved? {
      var src, dst := r.source.droppableId, r.destination.value;
      var from := b.lists[src];
      var k := PyList.PopIndex(r.source.index, |from|).value;
      var popped := b.lists[src := PyList.Without(from, k)];
      var m := Move(b, src, k, dst);
      assert DragEnd(b, r).board == m;
      var to := PyList.Insert(Get(popped, dst.droppableId), dst.index, from[k]);
      assert m.lists == b.lists[src := PyList.Without(from, k)][dst.droppableId := to];
      TwoUpdatesFrame(b.lists, src, PyList.Without(from, k), dst.droppableId, to);
    }
  }

  /** Two map updates keep every other entry and add at most their own keys. */
  lemma TwoUpdatesFrame(l: map<string, seq<Item>>, S: string, a: seq<Item>, D: string, c: seq<Item>)
    requires S in l
    ensures l[S := a][D := c].Keys == l.Keys + {D}
    ensures forall n :: n in l && n != S && n != D ==> l[S := a][D := c][n] == l[n]
  {
  }

  /** A move neither loses nor duplicates an item, so the item count over all
      lists is conserved. */
  lemma DragEndConserves(b: Board, r: DropResult)
    requires Valid(b)
    requires r.destination.Some? ==> r.source.droppableId in b.lists
    ensures Contents(DragEnd(b, r).board) == Contents(b)
    ensures |Contents(DragEnd(b, r).board)| == |Contents(b)|
  {
    var o := DragEnd(b, r);
    if o.reply.Saved? {
      var src := r.source.droppableId;
      MoveConserves(b, src, PyList.PopIndex(r.source.index, |b.lists[src]|).value, r.destination.value);
    }
  }

  /** A move keeps the multiset of cards. */
  lemma MoveConserves(b: Board, src: string, k: nat, dst: DraggableLocation)
    requires Valid(b) && src in b.lists && k < |b.lists[src]|
    ensures Contents(Move(b, src, k, dst)) == Contents(b)
  {
    var from := b.lists[src];
    var x := from[k];
    var w := PyList.Without(from, k);
    var popped := Put(b, src, w);
    PutContents(b, src, w);
    Cancel(Contents(popped) + multiset{x}, Contents(b), multiset(w));
    var b2 := SetDefault(popped, dst.droppableId);
    SetDefaultContents(popped, dst.droppableId);
    var to := b2.lists[dst.droppableId];
    var t := PyList.Insert(to, dst.index, x);
    PutContents(b2, dst.droppableId, t);
    Cancel(Contents(Put(b2, dst.droppableId, t)), Contents(b2) + multiset{x}, multiset(to));
    assert Move(b, src, k, dst) == Put(b2, dst.droppableId, t);
  }

  lemma Cancel(a: multiset<Item>, b: multiset<Item>, c: multiset<Item>)
    requires a + c == b + c
    ensures a == b
  {
    forall x ensures a[x] == b[x] {
      assert (a + c)[x] == (b + c)[x];
    }
  }

  /** Dropping an item back where it was picked up changes no list, though
      the board is still saved. Python's `insert` counts a negative index
      against the shortened list, so this holds for non-negative indices. */
  lemma DragEndSameIndex(b: Board, r: DropResult)
    requires Valid(b) && r.destination.Some? && r.source.droppableId in b.lists
    requires r.destination.value == r.source
    requires 0 <= r.source.index < |b.lists[r.source.droppableId]|
    ensures DragEnd(b, r) == Outcome(b, Saved(None))
  {
    var src, i := r.source.droppableId, r.source.index;
    var from := b.lists[src];
    var popped := b.lists[src := PyList.Without(from, i)];
    PyList.InsertWithout(from, i);
    assert PyList.PopIndex(i, |from|) == Some(i);
    var m := Move(b, src, i, r.source);
    assert DragEnd(b, r).board == m;
    assert Get(popped, src) == PyList.Without(from, i);
    assert m.lists == popped[src := from];
    assert popped[src := from] == b.lists;
  }

  /** Swapping source and destination twice gives back the drop result. */
  lemma SwappedTwice(r: DropResult)
    requires r.destination.Some?
    ensures Swapped(Swapped(r)) == r
  {
  }

  /** The undo of a cross-list move restores the board: the item goes back to
      its original list and position. The only trace left is a destination
      list that the move created, which stays as an empty list, exactly as
      `setdefault` on the original board would leave it. The undo's own undo
      is the original move. Both indices are non-negative and the destination
      index within the destination list, as the drag library reports them. */
  lemma DragEndUndo(b: Board, r: DropResult)
    requires Valid(b) && r.destination.Some? && r.source.droppableId in b.lists
    requires r.source.droppableId != r.destination.value.droppableId
    requires 0 <= r.source.index < |b.lists[r.source.droppableId]|
    requires 0 <= r.destination.value.index <= |Get(b.lists, r.destination.value.droppableId)|
    ensures DragEnd(b, r).reply == Saved(Some(MoveUndo(Swapped(r))))
    ensures r.destination.value.droppableId in DragEnd(b, r).board.lists
    ensures DragEnd(DragEnd(b, r).board, Swapped(r)) ==
      Outcome(SetDefault(b, r.destination.value.droppableId), Saved(Some(MoveUndo(r))))
  {
    var S, D := r.source.droppableId, r.destination.value.droppableId;
    var i, j := r.source.index, r.destination.value.index;
    PyList.WithoutInsert(Get(b.lists[S := PyList.Without(b.lists[S], i)], D), j, b.lists[S][i]);
    MoveBack(b, S, i, r.destination.value);
    SwappedTwice(r);
    var b1 := Move(b, S, i, r.destination.value);
    assert DragEnd(b, r).board == b1;
    assert PyList.PopIndex(j, |b1.lists[D]|) == Some(j);
    assert DragEnd(b1, Swapped(r)).board == Move(b1, D, j, r.source);
  }

  /** Moving an item from (S, i) to (D, j) and then from (D, j) back to (S, i)
      gives the board `setdefault(D)` makes of the original. */
  lemma MoveBack(b: Board, S: string, i: nat, dst: DraggableLocation)
    requires Valid(b) && S in b.lists && i < |b.lists[S]| && S != dst.droppableId
    requires 0 <= dst.index <= |Get(b.lists, dst.droppableId)|
    ensures var b1 := Move(b, S, i, dst);
      && dst.droppableId in b1.lists
      && dst.index < |b1.lists[dst.droppableId]|
      && Move(b1, dst.droppableId, dst.index, DraggableLocation(S, i)) == SetDefault(b, dst.droppableId)
  {
    var D, j := dst.droppableId, dst.index;
    var from, d := b.lists[S], Get(b.lists, D);
    var x, w := from[i], PyList.Without(from, i);
    var ins := PyList.Insert(d, j, x);
    var b1 := Move(b, S, i, dst);
    assert b1.lists == b.lists[S := w][D := ins] by {
      assert Get(b.lists[S := w], D) == d;
    }
    PyList.WithoutInsert(d, j, x);
    PyList.InsertWithout(from, i);
    var b2 := Move(b1, D, j, DraggableLocation(S, i));
    assert b2.lists == b1.lists[D := d][S := from] by {
      assert Get(b1.lists[D := d], S) == w;
    }
    UndoTwoUpdates(b.lists, S, D, w, ins, d);
  }

  /** Overwriting two entries and then writing back their old values (the
      second one only where it existed) is the same as writing the second. */
  lemma UndoTwoUpdates(l: map<string, seq<Item>>, S: string, D: string, w: seq<Item>, ins: seq<Item>, d: seq<Item>)
    requires S in l && S != D
    ensures l[S := w][D := ins][D := d][S := l[S]] == l[D := d]
  {
  }

  // ---------------------------------------------------------------------
  // add_item
  // ---------------------------------------------------------------------

  /** Adding puts exactly the new item on the board. */
  lemma AddItemContents(b: Board, listName: string, text: string, key: string)
    requires Valid(b)
    ensures Contents(AddItem(b, listName, text, key).board) == Contents(b) + multiset{Item(key, text)}
  {
    var b1 := SetDefault(b, listName);
    SetDefaultContents(b, listName);
    var s := b1.lists[listName];
    PutContents(b1, listName, s + [Item(key, text)]);
    assert multiset(s + [Item(key, text)]) == multiset(s) + multiset{Item(key, text)};
    Cancel(Contents(AddItem(b, listName, text, key).board), Contents(b) + multiset{Item(key, text)}, multiset(s));
  }

  /** The undo of `add_item` (`remove_item` with the new key) removes exactly
      the added item and no other: the board is back as it was, save that a
      list the add created stays as an empty list. That undo in turn offers
      to add the same text to the same list. */
  lemma AddItemUndo(b: Board, listName: string, text: string, key: string)
    requires Valid(b) && KeyAbsent(b, key)
    ensures RemoveItem(AddItem(b, listName, text, key).board, key) ==
      Outcome(SetDefault(b, listName), Saved(Some(AddUndo(listName, text))))
  {
    var slot := AddedItemFirst(b, listName, text, key);
    RemoveAddedItem(b, listName, text, key, slot);
  }

  lemma RemoveAddedItem(b: Board, listName: string, text: string, key: string, slot: nat)
    requires Valid(b)
    requires var a := AddItem(b, listName, text, key).board;
      var n := |Get(b.lists, listName)|;
      && slot < |a.order| && a.order[slot] == listName
      && n < |a.lists[listName]| && a.lists[listName][n].key == key
      && (forall m :: 0 <= m < slot ==> NoKey(a.lists[a.order[m]], key))
      && NoKey(a.lists[listName][..n], key)
    ensures RemoveItem(AddItem(b, listName, text, key).board, key) ==
      Outcome(SetDefault(b, listName), Saved(Some(AddUndo(listName, text))))
  {
    var a := AddItem(b, listName, text, key).board;
    var before := Get(b.lists, listName);
    RemoveItemAt(a, key, slot, |before|);
    var s := a.lists[listName];
    assert PyList.Without(s, |before|) == before by {
      assert s == before + [Item(key, text)];
    }
    PutBack(b, listName, text, key);
  }

  /** Putting the list back as it was before an add gives `setdefault`'s board. */
  lemma PutBack(b: Board, listName: string, text: string, key: string)
    requires Valid(b)
    ensures Put(AddItem(b, listName, text, key).board, listName, Get(b.lists, listName)) == SetDefault(b, listName)
  {
    var a := AddItem(b, listName, text, key).board;
    var before := Get(b.lists, listName);
    var restored := SetDefault(b, listName);
    assert restored.lists == b.lists[listName := before];
    assert Put(a, listName, before).lists == b.lists[listName := before];
  }

  /** Under a fresh key, `remove_item`'s scan stops at the item `add_item`
      appended: at the end of its list, the first item with that key. */
  lemma AddedItemFirst(b: Board, listName: string, text: string, key: string) returns (slot: nat)
    requires Valid(b) && KeyAbsent(b, key)
    ensures var a := AddItem(b, listName, text, key).board;
      var n := |Get(b.lists, listName)|;
      && slot < |a.order| && a.order[slot] == listName
      && n < |a.lists[listName]| && a.lists[listName][n].key == key
      && (forall m :: 0 <= m < slot ==> NoKey(a.lists[a.order[m]], key))
      && NoKey(a.lists[listName][..n], key)
  {
    var a := AddItem(b, listName, text, key).board;
    var before := Get(b.lists, listName);
    var s := a.lists[listName];
    assert s == before + [Item(key, text)];
    assert listName in a.order;
    slot :| 0 <= slot < |a.order| && a.order[slot] == listName;
    forall m | 0 <= m < slot ensures NoKey(a.lists[a.order[m]], key) {
      assert a.order[m] != listName;
      assert a.order[m] in b.lists;
    }
    assert s[..|before|] == before;
  }

  // ---------------------------------------------------------------------
  // remove_item
  // ---------------------------------------------------------------------

  /** `remove_item` takes exactly the found item off the board, so the count
      drops by one; an unknown key takes nothing. */
  lemma RemoveItemContents(b: Board, key: string)
    requires Valid(b)
    ensures FindKey(b.order, b.lists, key).None? ==> Contents(RemoveItem(b, key).board) == Contents(b)
    ensures FindKey(b.order, b.lists, key).Some? ==>
      var f := FindKey(b.order, b.lists, key).value;
      var x := b.lists[b.order[f.slot]][f.index];
      && x in Contents(b)
      && Contents(RemoveItem(b, key).board) == Contents(b) - multiset{x}
      && |Contents(RemoveItem(b, key).board)| == |Contents(b)| - 1
  {
    match FindKey(b.order, b.lists, key)
    case None =>
    case Some(f) =>
      var name := b.order[f.slot];
      var s := b.lists[name];
      var x := s[f.index];
      var w := PyList.Without(s, f.index);
      var after := Contents(RemoveItem(b, key).board);
      assert after == Contents(Put(b, name, w));
      PutContents(b, name, w);
      Cancel(after + multiset{x}, Contents(b), multiset(w));
      assert after == Contents(b) - multiset{x};
  }

  /** The undo of `remove_item` (`add_item` of the removed text to its list,
      under a new key) puts an item with the same text at the end of the same
      list, and changes nothing else. */
  lemma RemoveItemUndo(b: Board, key: string, newKey: string, slot: nat, index: nat)
    requires Valid(b) && FindKey(b.order, b.lists, key) == Some(Found(slot, index))
    ensures
      var name := b.order[slot];
      var s := b.lists[name];
      var o := RemoveItem(b, key);
      var a := AddItem(o.board, name, s[index].text, newKey).board;
      && o.reply == Saved(Some(AddUndo(name, s[index].text)))
      && a.order == b.order
      && a.lists == b.lists[name := s[..index] + s[index + 1..] + [Item(newKey, s[index].text)]]
  {
    var name := b.order[slot];
    var s := b.lists[name];
    var o := RemoveItem(b, key);
    assert o.board.lists[name] == s[..index] + s[index + 1..];
  }

  /** Removing and undoing trades the removed item for one with the same
      text under the new key; no other item is touched. */
  lemma RemoveItemUndoContents(b: Board, key: string, newKey: string, slot: nat, index: nat)
    requires Valid(b) && FindKey(b.order, b.lists, key) == Some(Found(slot, index))
    ensures
      var name := b.order[slot];
      var x := b.lists[name][index];
      var a := AddItem(RemoveItem(b, key).board, name, x.text, newKey).board;
      Contents(a) == Contents(b) - multiset{x} + multiset{Item(newKey, x.text)}
  {
    var name := b.order[slot];
    var x := b.lists[name][index];
    RemoveItemContents(b, key);
    AddItemContents(RemoveItem(b, key).board, name, x.text, newKey);
  }

  /** When the removed item was the last of its list and the undo happens to
      reuse its key, the undo restores the board exactly. */
  lemma RemoveItemUndoRestoresLast(b: Board, key: string, slot: nat, index: nat)
    requires Valid(b) && FindKey(b.order, b.lists, key) == Some(Found(slot, index))
    requires index == |b.lists[b.order[slot]]| - 1
    ensures
      var name := b.order[slot];
      AddItem(RemoveItem(b, key).board, name, b.lists[name][index].text, key).board == b
  {
    var name := b.order[slot];
    var s := b.lists[name];
    RemoveItemUndo(b, key, key, slot, index);
    LastPutBack(s, key);
    assert b.lists[name := s] == b.lists;
  }

  /** Popping the last item and appending one with its key and text gives
      back the list. */
  lemma LastPutBack(s: seq<Item>, key: string)
    requires s != [] && s[|s| - 1].key == key
    ensures var k := |s| - 1; s[..k] + s[k + 1..] + [Item(key, s[k].text)] == s
  {
    var k := |s| - 1;
    assert s[k] == Item(key, s[k].text);
    assert s == s[..k] + [s[k]];
  }

  // ---------------------------------------------------------------------
  // Unique keys
  // ---------------------------------------------------------------------

  /** A move keeps every key on at most one item. */
  lemma DragEndKeepsKeysUnique(b: Board, r: DropResult)
    requires Valid(b) && UniqueKeys(Contents(b))
    requires r.destination.Some? ==> r.source.droppableId in b.lists
    ensures UniqueKeys(Contents(DragEnd(b, r).board))
  {
    DragEndConserves(b, r);
  }

  /** Adding under a fresh key keeps every key on at most one item. */
  lemma AddItemKeepsKeysUnique(b: Board, listName: string, text: string, key: string)
    requires Valid(b) && UniqueKeys(Contents(b)) && KeyAbsent(b, key)
    ensures UniqueKeys(Contents(AddItem(b, listName, text, key).board))
  {
    AddItemContents(b, listName, text, key);
    KeyAbsentContents(b, key);
  }

  /** Removing keeps every key on at most one item, and when keys are unique
      no item with the removed key is left on the board. */
  lemma RemoveItemKeepsKeysUnique(b: Board, key: string)
    requires Valid(b) && UniqueKeys(Contents(b))
    ensures UniqueKeys(Contents(RemoveItem(b, key).board))
    ensures forall x :: x in Contents(RemoveItem(b, key).board) ==> x.key != key
  {
    RemoveItemContents(b, key);
    match FindKey(b.order, b.lists, key)
    case None =>
      GatherNoKey(b.order, b.lists, key);
    case Some(f) =>
      UniqueKeysRemove(Contents(b), b.lists[b.order[f.slot]][f.index]);
  }

  /** Taking one item out of a board whose keys are unique keeps them unique
      and leaves no item with that item's key. */
  lemma UniqueKeysRemove(c: multiset<Item>, x: Item)
    requires UniqueKeys(c) && x in c
    ensures UniqueKeys(c - multiset{x})
    ensures forall y :: y in c - multiset{x} ==> y.key != x.key
  {
    assert (c - multiset{x})[x] == 0;
  }

  /** A cross-list move of the last item of a list: the list stays, empty. */
  lemma DragEndExample()
    ensures
      var b := Board(["A", "B"], map["A" := [Item("k1", "x")], "B" := []]);
      var r := DropResult("draggable-k1", "DEFAULT", DraggableLocation("A", 0), "FLUID",
                          Some(DraggableLocation("B", 0)), None, "DROP");
      DragEnd(b, r).board == Board(["A", "B"], map["A" := [], "B" := [Item("k1", "x")]])
  {
    var b := Board(["A", "B"], map["A" := [Item("k1", "x")], "B" := []]);
    var r := DropResult("draggable-k1", "DEFAULT", DraggableLocation("A", 0), "FLUID",
                        Some(DraggableLocation("B", 0)), None, "DROP");
    assert Valid(b);
    DragEndPlacement(b, r);
    var after := DragEnd(b, r).board;
    assert after.order == ["A", "B"];
    assert after.lists.Keys == {"A", "B"};
    assert after.lists["A"] == [];
    assert after.lists["B"] == [Item("k1", "x")];
  }
}
