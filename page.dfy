/** The page state that the `window.onload` handler of the task board works
    on: the `.list` elements and their cards, the `cardIdCounter` variable and
    the `kanbanState` storage slot, with the handlers that change them. */
module Page {
  import opened Options
  import opened Text
  import opened Cards
  import opened BoardOps
  import opened Persistence

  class Board {
    /** Ids of the `.list` elements, in page order; fixed once the page loads. */
    const listIds: seq<string>
    /** The cards of each list. */
    var lists: Lists
    /** `cardIdCounter`. */
    var counter: int
    /** The `kanbanState` slot. */
    var saved: Stored

    /** What the page markup provides: one card sequence per list element,
        distinct list ids, and the list that new tasks go to. */
    ghost predicate WellFormed()
      reads this
    {
      |lists| == |listIds| && Distinct(listIds) && FirstList in listIds
    }

    /** Once start-up is over, every card carries its delete button. */
    ghost predicate Valid()
      reads this
    {
      WellFormed() && AllInstrumented(lists)
    }

    /** The `window.onload` handler: the counter starts at 4, the saved state
        is loaded, and the markup's own cards are instrumented. After a load
        that cleared the lists those cards are detached, so this only shows
        on the page when nothing was loaded. */
    constructor (ids: seq<string>, markup: Lists, stored: Stored)
      requires |markup| == |ids| && Distinct(ids) && FirstList in ids
      ensures Valid() && listIds == ids && saved == stored
      ensures !stored.Saved? ==> counter == DefaultCounter && lists == InstrumentAll(markup)
      ensures stored.Saved? ==>
                && counter == RestoredCounter(stored.snapshot.counter)
                && lists == Restore(ids, Cleared(|ids|), stored.snapshot.lists.GetOr([]))
    {
      listIds := ids;
      lists := markup;
      counter := DefaultCounter;
      saved := stored;
      new;
      LoadSavedState();
      if !stored.Saved? {
        InstrumentMarkup();
      }
    }

    /** `loadSavedState`. Nothing changes when the slot is empty or does not
        parse. Otherwise the counter is set, every card is removed, and each
        snapshot entry's cards are recreated, with their delete buttons, at
        the end of the list with that id; entries for lists the page does not
        have are skipped. When the snapshot has no `lists`, the exception
        comes after the counter was set and the cards were removed. */
    method LoadSavedState()
      requires WellFormed()
      modifies this`lists, this`counter
      ensures WellFormed() && saved == old(saved)
      ensures !saved.Saved? ==> lists == old(lists) && counter == old(counter)
      ensures saved.Saved? ==>
                && counter == RestoredCounter(saved.snapshot.counter)
                && lists == Restore(listIds, Cleared(|listIds|), saved.snapshot.lists.GetOr([]))
                && AllInstrumented(lists) && OneButtonEach(lists)
    {
      if !saved.Saved? {
        return;
      }
      var state := saved.snapshot;
      counter := RestoredCounter(state.counter);
      var k := 0;
      while k < |lists|
        invariant 0 <= k <= |lists| == |listIds|
        invariant counter == RestoredCounter(state.counter)
        invariant forall j :: 0 <= j < k ==> lists[j] == []
      {
        lists := lists[k := []];
        k := k + 1;
      }
      assert lists == Cleared(|listIds|);
      RestoreInstrumented(listIds, state.lists.GetOr([]));
      if state.lists.None? {
        return;
      }
      var entries := state.lists.value;
      var i := 0;
      while i < |entries|
        invariant 0 <= i <= |entries|
        invariant counter == RestoredCounter(state.counter)
        invariant lists == Restore(listIds, Cleared(|listIds|), entries[..i])
      {
        var e := entries[i];
        if e.listId in listIds {
          var t := IndexOf(listIds, e.listId);
          ghost var before := lists;
          var j := 0;
          assert RebuiltAll(e.cards[..0]) == [];
          assert |before| == |listIds| && before[t] + [] == before[t];
          assert before[t := before[t]] == before;
          while j < |e.cards|
            invariant 0 <= j <= |e.cards| && |lists| == |before|
            invariant counter == RestoredCounter(state.counter)
            invariant lists == before[t := before[t] + RebuiltAll(e.cards[..j])]
          {
            assert e.cards[..j + 1] == e.cards[..j] + [e.cards[j]];
            RebuiltAllAppend(e.cards[..j], [e.cards[j]]);
            assert RebuiltAll([e.cards[j]]) == [Rebuilt(e.cards[j])];
            assert before[t] + RebuiltAll(e.cards[..j + 1]) == lists[t] + [Rebuilt(e.cards[j])];
            lists := lists[t := lists[t] + [Rebuilt(e.cards[j])]];
            j := j + 1;
          }
          assert e.cards[..j] == e.cards;
        }
        assert entries[..i + 1][..i] == entries[..i];
        i := i + 1;
      }
      assert entries[..i] == entries;
    }

    /** The start-up loop that passes each of the markup's cards to
        `addCardFeatures`. */
    method InstrumentMarkup()
      requires WellFormed()
      modifies this`lists
      ensures WellFormed()
      ensures lists == InstrumentAll(old(lists))
    {
      ghost var goal := InstrumentAll(lists);
      var k := 0;
      while k < |lists|
        invariant 0 <= k <= |lists| == |old(lists)|
        invariant forall j :: 0 <= j < k ==> lists[j] == goal[j]
        invariant forall j :: k <= j < |lists| ==> lists[j] == old(lists)[j]
      {
        var q := 0;
        while q < |lists[k]|
          invariant |lists| == |old(lists)| && 0 <= q <= |lists[k]| == |old(lists)[k]|
          invariant forall j :: 0 <= j < |lists| && j != k ==> lists[j] == if j < k then goal[j] else old(lists)[j]
          invariant lists[k][..q] == goal[k][..q]
          invariant lists[k][q..] == old(lists)[k][q..]
        {
          assert lists[k][q] == old(lists)[k][q];
          lists := lists[k := lists[k][q := Instrument(lists[k][q])]];
          q := q + 1;
        }
        assert lists[k] == lists[k][..q];
        k := k + 1;
      }
      assert lists == goal;
    }

    /** The snapshot `saveState` builds: the counter and, for each list in
        page order, the id and saved text of each of its cards. */
    method CurrentSnapshot() returns (s: Snapshot)
      requires WellFormed()
      ensures s == SnapshotOf(listIds, lists, counter)
      ensures s.counter == Some(counter) && s.lists.Some? && |s.lists.value| == |listIds|
      ensures forall k :: 0 <= k < |listIds| ==>
                && s.lists.value[k].listId == listIds[k]
                && |s.lists.value[k].cards| == |lists[k]|
                && forall q :: 0 <= q < |lists[k]| ==>
                     s.lists.value[k].cards[q] == CardData(lists[k][q].id, SavedText(lists[k][q]))
    {
      var out: seq<ListData> := [];
      var k := 0;
      while k < |listIds|
        invariant 0 <= k <= |listIds|
        invariant out == ListsOf(listIds, lists)[..k]
      {
        var list := lists[k];
        var cards := seq(|list|, q requires 0 <= q < |list| => DataOf(list[q]));
        assert ListsOf(listIds, lists)[..k + 1] == ListsOf(listIds, lists)[..k] + [ListData(listIds[k], cards)];
        out := out + [ListData(listIds[k], cards)];
        k := k + 1;
      }
      assert out == ListsOf(listIds, lists);
      s := Snapshot(Some(counter), Some(out));
    }

    /** `saveState`: the snapshot overwrites the storage slot. */
    method SaveState()
      requires WellFormed()
      modifies this`saved
      ensures saved == Saved(SnapshotOf(listIds, lists, counter))
    {
      var s := CurrentSnapshot();
      saved := Saved(s);
    }

    /** The add-task click handler (and the Enter key, which clicks it). A
        whitespace-only input changes nothing. Otherwise a card with id
        "card" + counter, its `innerText` set to the trimmed input and with
        its delete button, is appended to list1, the counter goes up by one,
        the input is cleared and the board is saved. Returns the input
        field's value afterwards. */
    method AddTask(input: string) returns (inputAfter: string)
      requires Valid()
      modifies this`lists, this`counter, this`saved
      ensures Valid()
      ensures AllSpace(input) ==>
                lists == old(lists) && counter == old(counter) && saved == old(saved) && inputAfter == input
      ensures !AllSpace(input) ==>
                var t := IndexOf(listIds, FirstList);
                && counter == old(counter) + 1
                && lists[t] == old(lists)[t] + [Card(CardId(old(counter)), InnerText(Trim(input)), 1)]
                && (forall k :: 0 <= k < |lists| && k != t ==> lists[k] == old(lists)[k])
                && saved == Saved(SnapshotOf(listIds, lists, counter))
                && inputAfter == []
      ensures UniqueIds(old(lists)) && IdsBelow(old(lists), old(counter)) ==>
                UniqueIds(lists) && IdsBelow(lists, counter)
      ensures OneButtonEach(old(lists)) ==> OneButtonEach(lists)
    {
      TrimEmptyIff(input);
      var taskText := Trim(input);
      if taskText == [] {
        return input;
      }
      // appendChild, then addCardFeatures
      var card := Instrument(Card(CardId(counter), InnerText(taskText), 0));
      var t := IndexOf(listIds, FirstList);
      AppendKeeps(lists, t, card, counter);
      lists := Append(lists, t, card);
      counter := counter + 1;
      inputAfter := [];
      SaveState();
    }

    /** `dragDrop` on list `target` for the card whose id the drag carried:
        the first card with that id becomes the last card of `target`, and
        the board is saved. */
    method DragDrop(target: nat, id: string)
      requires Valid() && target < |listIds| && HasId(lists, id)
      modifies this`lists, this`saved
      ensures Valid() && counter == old(counter)
      ensures var p := Find(old(lists), id).value;
                lists == Move(old(lists), p.list, p.index, target)
      ensures lists[target] != [] && lists[target][|lists[target]| - 1].id == id
      ensures saved == Saved(SnapshotOf(listIds, lists, counter))
      ensures UniqueIds(old(lists)) ==> UniqueIds(lists)
      ensures OneButtonEach(old(lists)) ==> OneButtonEach(lists)
    {
      var p := Find(lists, id);
      var pos := p.value;
      ghost var before := lists;
      lists := Move(lists, pos.list, pos.index, target);
      MoveKeeps(before, pos.list, pos.index, target);
      SaveState();
    }

    /** The delete button's click handler on the card at (l, i): that card
        is removed and the board is saved. */
    method RemoveCard(l: nat, i: nat)
      requires Valid() && ValidPos(lists, l, i)
      modifies this`lists, this`saved
      ensures Valid() && counter == old(counter)
      ensures lists == RemoveAt(old(lists), l, i)
      ensures multiset(Flatten(lists)) + multiset{old(lists)[l][i]} == multiset(Flatten(old(lists)))
      ensures saved == Saved(SnapshotOf(listIds, lists, counter))
      ensures UniqueIds(old(lists)) ==> UniqueIds(lists) && !HasId(lists, old(lists)[l][i].id)
      ensures OneButtonEach(old(lists)) ==> OneButtonEach(lists)
    {
      ghost var before := lists;
      lists := RemoveAt(lists, l, i);
      RemoveAtSpec(before, l, i);
      RemoveAtCards(before, l, i);
      RemoveMoveInstrumented(before, l, i, l);
      SaveState();
    }
  }
}
