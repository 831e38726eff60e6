/** The saved form of the board (`saveState`) and how `loadSavedState`
    rebuilds the lists from it. JSON text is not modelled: the storage slot
    holds either nothing, something that does not parse, or a snapshot. */
module Persistence {
  import opened Options
  import opened Text
  import opened Cards
  import opened BoardOps

  /** `{id, text}` of one card. */
  datatype CardData = CardData(id: string, text: string)

  /** One entry of `state.lists`: a list id and its cards, in order. */
  datatype ListData = ListData(listId: string, cards: seq<CardData>)

  /** A parsed snapshot. `counter` is `None` when `cardIdCounter` is missing
      or a falsy non-number; `lists` is `None` when `state.lists` is missing. */
  datatype Snapshot = Snapshot(counter: Option<int>, lists: Option<seq<ListData>>)

  /** The `kanbanState` slot as `loadSavedState` finds it: absent or empty
      (both falsy), text that does not parse or that parses to `null` (both
      throw before anything changes), or a parsed snapshot. */
  datatype Stored = Empty | Unreadable | Saved(snapshot: Snapshot)

  /** The start value of `cardIdCounter`, and the fallback a load uses when
      the saved counter is falsy. */
  const DefaultCounter: int := 4

  /** The id of the list new tasks go to. */
  const FirstList: string := "list1"

  predicate Distinct(ids: seq<string>) {
    forall i, j :: 0 <= i < j < |ids| ==> ids[i] != ids[j]
  }

  /** The list ids of the entries, in order. */
  function EntryIds(entries: seq<ListData>): (r: seq<string>)
    ensures |r| == |entries| && forall j :: 0 <= j < |entries| ==> r[j] == entries[j].listId
  {
    seq(|entries|, j requires 0 <= j < |entries| => entries[j].listId)
  }

  /** Index of `id` among the page's list ids: `document.getElementById`. */
  function IndexOf(ids: seq<string>, id: string): (k: nat)
    requires id in ids
    ensures k < |ids| && ids[k] == id
    ensures Distinct(ids) ==> forall j :: 0 <= j < |ids| && ids[j] == id ==> j == k
  {
    if ids[0] == id then 0 else 1 + IndexOf(ids[1..], id)
  }

  /** The record `saveState` keeps of one card. */
  function DataOf(c: Card): CardData {
    CardData(c.id, SavedText(c))
  }

  /** `state.lists` as `saveState` builds it: one entry per list in page order. */
  function ListsOf(ids: seq<string>, b: Lists): seq<ListData>
    requires |ids| == |b|
  {
    seq(|ids|, k requires 0 <= k < |ids| =>
      ListData(ids[k], seq(|b[k]|, q requires 0 <= q < |b[k]| => DataOf(b[k][q]))))
  }

  /** The snapshot `saveState` writes. */
  function SnapshotOf(ids: seq<string>, b: Lists, counter: int): Snapshot
    requires |ids| == |b|
  {
    Snapshot(Some(counter), Some(ListsOf(ids, b)))
  }

  /** `state.cardIdCounter || 4`. */
  function RestoredCounter(saved: Option<int>): (n: int)
    ensures n != 0
    ensures saved.Some? && saved.value != 0 ==> n == saved.value
    ensures saved.None? || saved.value == 0 ==> n == DefaultCounter
  {
    match saved
    case Some(v) => if v == 0 then DefaultCounter else v
    case None => DefaultCounter
  }

  /** A card recreated from the snapshot: its text set through `innerText`,
      then passed to `addCardFeatures`. */
  function Rebuilt(d: CardData): (c: Card)
    ensures c.id == d.id && c.buttons == 1
    ensures c.text == InnerText(d.text)
    ensures NoBreaks(d.text) ==> c.text == d.text
  {
    Instrument(Card(d.id, InnerText(d.text), 0))
  }

  function RebuiltAll(ds: seq<CardData>): (cs: seq<Card>)
    ensures |cs| == |ds| && forall j :: 0 <= j < |ds| ==> cs[j] == Card(ds[j].id, InnerText(ds[j].text), 1)
  {
    seq(|ds|, j requires 0 <= j < |ds| => Rebuilt(ds[j]))
  }

  /** The board after the clearing loop: every list empty. */
  function Cleared(n: nat): (b: Lists)
    ensures |b| == n && forall k :: 0 <= k < n ==> b[k] == []
  {
    seq(n, _ => [])
  }

  /** One entry of `Object.entries(state.lists)`: its cards are appended to
      the list with that id, or skipped when the page has no such list. */
  function Refill(ids: seq<string>, b: Lists, e: ListData): Lists
    requires |ids| == |b|
  {
    if e.listId in ids then
      var k := IndexOf(ids, e.listId);
      b[k := b[k] + RebuiltAll(e.cards)]
    else b
  }

  /** All entries, in snapshot order. */
  function Restore(ids: seq<string>, b: Lists, entries: seq<ListData>): (r: Lists)
    requires |ids| == |b|
    ensures |r| == |b|
  {
    if entries == [] then b
    else Refill(ids, Restore(ids, b, entries[..|entries| - 1]), entries[|entries| - 1])
  }

  /** The cards of every entry with the given list id, in snapshot order. */
  function Gathered(entries: seq<ListData>, id: string): seq<CardData> {
    if entries == [] then []
    else
      var last := entries[|entries| - 1];
      Gathered(entries[..|entries| - 1], id) + (if last.listId == id then last.cards else [])
  }

  lemma RebuiltAllAppend(xs: seq<CardData>, ys: seq<CardData>)
    ensures RebuiltAll(xs + ys) == RebuiltAll(xs) + RebuiltAll(ys)
  {
  }

  /** After restoring, each list holds what it held before followed by the
      cards of every snapshot entry carrying its id, in snapshot order;
      entries whose id is not on the page contribute nothing. */
  lemma {:induction false} RestoreColumns(ids: seq<string>, b: Lists, entries: seq<ListData>)
    requires |ids| == |b| && Distinct(ids)
    ensures forall k :: 0 <= k < |ids| ==> Restore(ids, b, entries)[k] == b[k] + RebuiltAll(Gathered(entries, ids[k]))
  {
    if entries != [] {
      var init, last := entries[..|entries| - 1], entries[|entries| - 1];
      RestoreColumns(ids, b, init);
      var prev := Restore(ids, b, init);
      forall k | 0 <= k < |ids|
        ensures Restore(ids, b, entries)[k] == b[k] + RebuiltAll(Gathered(entries, ids[k]))
      {
        var added := if last.listId == ids[k] then last.cards else [];
        RebuiltAllAppend(Gathered(init, ids[k]), added);
        if last.listId in ids {
          var j := IndexOf(ids, last.listId);
          assert j == k <==> last.listId == ids[k];
        }
      }
    }
  }

  /** Gathering over entries with distinct ids: an entry's own cards, or
      nothing when no entry has that id. */
  lemma {:induction false} GatheredDistinct(entries: seq<ListData>, id: string)
    requires Distinct(EntryIds(entries))
    ensures forall j :: 0 <= j < |entries| && entries[j].listId == id ==> Gathered(entries, id) == entries[j].cards
    ensures (forall j :: 0 <= j < |entries| ==> entries[j].listId != id) ==> Gathered(entries, id) == []
  {
    if entries != [] {
      var init, last := entries[..|entries| - 1], entries[|entries| - 1];
      assert EntryIds(init) == EntryIds(entries)[..|init|];
      GatheredDistinct(init, id);
      if last.listId == id {
        assert forall j :: 0 <= j < |init| ==> init[j].listId != id;
        assert Gathered(entries, id) == last.cards;
      } else {
        assert Gathered(entries, id) == Gathered(init, id);
        assert forall j :: 0 <= j < |entries| && entries[j].listId == id ==> j < |init| && init[j] == entries[j];
      }
    }
  }

  /** Every text in the entries is clean: trimmed and free of crosses. */
  predicate CleanEntries(entries: seq<ListData>) {
    forall j, q :: 0 <= j < |entries| && 0 <= q < |entries[j].cards| ==> CleanText(entries[j].cards[q].text)
  }

  /** A card rebuilt from clean data is saved as exactly that data. */
  lemma DataOfRebuilt(d: CardData)
    requires CleanText(d.text)
    ensures DataOf(Rebuilt(d)) == d
  {
    SavedTextOfClean(Rebuilt(d));
  }

  /** Restoring a snapshot whose entries are exactly the page's lists, in page
      order, with clean texts and a non-zero counter, and then saving, writes
      the same snapshot back. */
  lemma {:induction false} RestoreThenSave(ids: seq<string>, s: Snapshot)
    requires Distinct(ids)
    requires s.counter.Some? && s.counter.value != 0 && s.lists.Some?
    requires |s.lists.value| == |ids| && forall k :: 0 <= k < |ids| ==> s.lists.value[k].listId == ids[k]
    requires CleanEntries(s.lists.value)
    ensures SnapshotOf(ids, Restore(ids, Cleared(|ids|), s.lists.value), RestoredCounter(s.counter)) == s
  {
    var entries := s.lists.value;
    var saved := ListsOf(ids, Restore(ids, Cleared(|ids|), entries));
    assert EntryIds(entries) == ids;
    forall k | 0 <= k < |ids|
      ensures saved[k] == entries[k]
    {
      ResavedList(ids, entries, k);
      assert ResavedAs(saved[k].cards, entries, ids[k]);
    }
    assert saved == entries;
  }

  /** Restoring a snapshot keyed by any subset of the page's lists, in any
      order, and saving it again, keeps the counter and each snapshot list's
      cards; the lists the snapshot does not mention are saved empty. */
  lemma RestoreThenSaveByList(ids: seq<string>, counter: int, entries: seq<ListData>)
    requires Distinct(ids) && counter != 0
    requires Distinct(EntryIds(entries))
    requires CleanEntries(entries)
    ensures RestoredCounter(Some(counter)) == counter
    ensures forall k :: 0 <= k < |ids| ==>
              ResavedAs(ListsOf(ids, Restore(ids, Cleared(|ids|), entries))[k].cards, entries, ids[k])
  {
    forall k | 0 <= k < |ids|
      ensures ResavedAs(ListsOf(ids, Restore(ids, Cleared(|ids|), entries))[k].cards, entries, ids[k])
    {
      ResavedList(ids, entries, k);
    }
  }

  /** The records saved for list `id` are those of the snapshot entry with
      that id, or none when the snapshot has no such entry. */
  ghost predicate ResavedAs(saved: seq<CardData>, entries: seq<ListData>, id: string) {
    && (forall j :: 0 <= j < |entries| && entries[j].listId == id ==> saved == entries[j].cards)
    && ((forall j :: 0 <= j < |entries| ==> entries[j].listId != id) ==> saved == [])
  }

  /** One list of `RestoreThenSaveByList`. */
  lemma ResavedList(ids: seq<string>, entries: seq<ListData>, k: nat)
    requires Distinct(ids) && k < |ids| && CleanEntries(entries) && Distinct(EntryIds(entries))
    ensures ResavedAs(ListsOf(ids, Restore(ids, Cleared(|ids|), entries))[k].cards, entries, ids[k])
  {
    var b := Restore(ids, Cleared(|ids|), entries);
    RestoreColumns(ids, Cleared(|ids|), entries);
    var g := Gathered(entries, ids[k]);
    assert b[k] == RebuiltAll(g);
    forall q | 0 <= q < |g|
      ensures DataOf(b[k][q]) == g[q]
    {
      GatheredMember(entries, ids[k], q);
      DataOfRebuilt(g[q]);
    }
    assert ListsOf(ids, b)[k].cards == g;
    GatheredDistinct(entries, ids[k]);
  }

  /** Every gathered record has clean text when the entries do. */
  lemma {:induction false} GatheredMember(entries: seq<ListData>, id: string, q: nat)
    requires CleanEntries(entries) && q < |Gathered(entries, id)|
    ensures CleanText(Gathered(entries, id)[q].text)
  {
    var init, last := entries[..|entries| - 1], entries[|entries| - 1];
    var g := Gathered(init, id);
    if q < |g| {
      GatheredMember(init, id, q);
    } else {
      assert Gathered(entries, id)[q] == last.cards[q - |g|];
    }
  }

  /** Every card has clean text and exactly one delete button. */
  ghost predicate CleanBoard(b: Lists) {
    forall k, q :: ValidPos(b, k, q) ==> CleanText(b[k][q].text) && b[k][q].buttons == 1
  }

  /** Saving a board whose cards have clean texts and one delete button each,
      then restoring that snapshot, gives back the same board and counter. */
  lemma SaveThenRestore(ids: seq<string>, b: Lists, counter: int)
    requires |ids| == |b| && Distinct(ids) && counter != 0
    requires CleanBoard(b)
    ensures var s := SnapshotOf(ids, b, counter);
      && Restore(ids, Cleared(|ids|), s.lists.value) == b
      && RestoredCounter(s.counter) == counter
  {
    var r := Restore(ids, Cleared(|ids|), ListsOf(ids, b));
    forall k | 0 <= k < |ids|
      ensures r[k] == b[k]
    {
      RestoredList(ids, b, k);
    }
  }

  /** One list of `SaveThenRestore`. */
  lemma RestoredList(ids: seq<string>, b: Lists, k: nat)
    requires |ids| == |b| && Distinct(ids) && k < |ids|
    requires CleanBoard(b)
    ensures Restore(ids, Cleared(|ids|), ListsOf(ids, b))[k] == b[k]
  {
    var entries := ListsOf(ids, b);
    RestoreColumns(ids, Cleared(|ids|), entries);
    assert EntryIds(entries) == ids;
    GatheredDistinct(entries, ids[k]);
    var g := Gathered(entries, ids[k]);
    assert g == entries[k].cards;
    forall q | 0 <= q < |b[k]|
      ensures RebuiltAll(g)[q] == b[k][q]
    {
      assert ValidPos(b, k, q);
      SavedTextOfClean(b[k][q]);
    }
    assert RebuiltAll(g) == b[k];
  }

  /** Every restored card carries exactly one delete button. */
  lemma RestoreInstrumented(ids: seq<string>, entries: seq<ListData>)
    requires Distinct(ids)
    ensures AllInstrumented(Restore(ids, Cleared(|ids|), entries))
    ensures OneButtonEach(Restore(ids, Cleared(|ids|), entries))
  {
    RestoreColumns(ids, Cleared(|ids|), entries);
  }

  /** The saved snapshot holds a record with a given id exactly when the
      board holds a card with that id. */
  lemma SnapshotHasId(ids: seq<string>, b: Lists, id: string)
    requires |ids| == |b|
    ensures (exists k, q :: 0 <= k < |ids| && 0 <= q < |ListsOf(ids, b)[k].cards| && ListsOf(ids, b)[k].cards[q].id == id)
            <==> HasId(b, id)
  {
    if HasId(b, id) {
      var k, q :| ValidPos(b, k, q) && b[k][q].id == id;
      assert ListsOf(ids, b)[k].cards[q].id == id;
    }
  }
}
