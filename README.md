# Task-Tracker kanban board: a Dafny model

The Task-Tracker page is a kanban board. Its fixed `.list` columns hold
draggable `.card` elements. Everything it does happens in the `window.onload`
handler of `Javascript/script.js`:

- the add-task button appends a new card `"card" + cardIdCounter` to `list1`;
- dropping a card on a list moves it to the end of that list;
- each card's ❌ delete button removes the card;
- every change writes a snapshot of the board to the `kanbanState` slot of
  `localStorage` (`saveState`);
- at start-up the board is rebuilt from that snapshot (`loadSavedState`).

The model replaces the page with explicit state and proves what each
handler does to it:

- `Text` (text.dfy): JavaScript's `trim` (ECMAScript white space and line
  terminators) and `replace('❌', '')`, which removes only the first cross.
- `Cards` (cards.dfy): a card is its id, its text and the number of delete
  buttons appended to it. Its `textContent` is the text followed by one ❌
  per button. `addCardFeatures` appends a button only when there is none.
  The record `saveState` keeps of a card is that content with its first ❌
  removed, then trimmed.
- `BoardOps` (board_ops.dfy): the board as a value, one card sequence per
  list, with `getElementById` over cards, `remove` and `appendChild`. This
  module proves that cards are kept or lost exactly, that order is kept, and
  that ids stay unique.
- `Persistence` (persistence.dfy): the snapshot, the storage slot, and the
  fold `loadSavedState` performs over the snapshot's entries, with both
  round trips.
- `Page` (page.dfy): class `Board` holds the page state that the handlers
  update in place: `lists`, `counter` (`cardIdCounter`) and `saved` (the
  storage slot). Its methods are the handlers, written as loops where the
  source loops. Each method's `ensures` ties the new state to the functions
  of `BoardOps` and `Persistence`.

Three behaviours of the code are worth knowing:

- A card whose own text contains ❌ loses that cross on saving, not the
  button's. The button's cross survives at the end of the text, so the card
  "a❌b" is saved as "ab❌" (`Cards.SavedTextMovesCross`).
- A load is not all-or-nothing. When the parsed snapshot has no `lists`,
  `Object.entries(undefined)` at line 48 throws only after line 39 set the
  counter and lines 42-45 removed every card. `Page.Board.LoadSavedState`
  ends in that cleared state.
- The `innerText` setter (lines 57 and 110) turns each line break into a
  `<br>` element, which `textContent` at line 24 does not read. A saved text
  "a\nb" therefore comes back as a card saved as "ab" (`Text.InnerText`,
  `Persistence.Rebuilt`). The round trips hold for texts without line
  breaks.

## Model

| member | source | states |
|---|---|---|
| Text.TrimStart | Javascript/script.js:103 | the result is the suffix of the input after its leading white space, and does not start with white space |
| Text.TrimEnd | Javascript/script.js:103 | the result is the prefix of the input before its trailing white space, and does not end with white space |
| Text.Trim | Javascript/script.js:103 | the trimmed text neither starts nor ends with white space and is no longer than the input; `Text.TrimSlice` says what was removed |
| Text.TrimSlice | Javascript/script.js:103 | the trimmed text is the slice of the input between an all-white-space prefix and an all-white-space suffix, so only white space at the two ends is removed |
| Text.TrimOfTrimmed | Javascript/script.js:103 | trimming text that is already trimmed returns it unchanged |
| Text.TrimIdempotent | Javascript/script.js:103 | trimming twice is trimming once |
| Text.TrimEmptyIff | Javascript/script.js:103-104 | the trimmed input is empty exactly when the input is white space only, both directions |
| Text.FirstIndex | Javascript/script.js:24 | the index holds the character and no earlier position does |
| Text.RemoveFirst | Javascript/script.js:24 | `replace('❌', '')`, characterised by `Text.RemoveFirstAt` and `Text.RemoveFirstAbsent` |
| Text.RemoveFirstAt | Javascript/script.js:24 | `replace` removes exactly the first cross and keeps everything else in order |
| Text.RemoveFirstAbsent | Javascript/script.js:24 | `replace` leaves text with no cross unchanged |
| Text.RemoveFirstBeforeTail | Javascript/script.js:24 | when the text has a cross, a trailing button cross survives and the text's own first cross is removed |
| Text.RemoveFirstOfTail | Javascript/script.js:24 | for text without a cross, the one trailing button cross is what is removed |
| Text.InnerText | Javascript/script.js:57 | after `innerText = s` the element's text holds no line break, and text without line breaks is kept unchanged |
| Text.InnerTextAppend | Javascript/script.js:57 | the conversion goes character by character: it distributes over concatenation, drops a single break and keeps any other single character |
| Cards.Value | Javascript/script.js:109 | the number a digit string denotes; `Cards.Digits` and `Cards.Decimal` are stated through it |
| Cards.Digits | Javascript/script.js:109 | the result is a non-empty string of decimal digits that denotes exactly n, with no leading zero |
| Cards.Decimal | Javascript/script.js:109 | `String(n)`: a minus sign exactly when n is negative, then a canonical digit string that denotes the magnitude of n |
| Cards.CardId | Javascript/script.js:109 | `"card" + n`; `Cards.CardIdInjective` states that it is one-to-one |
| Cards.CardIdInjective | Javascript/script.js:109 | `"card" + a == "card" + b` exactly when `a == b`, so distinct counter values give distinct ids |
| Cards.Instrument | Javascript/script.js:75-85 | the card keeps its id and text, a button is added only when there is none, and the result has exactly one button when the card had at most one |
| Cards.Content | Javascript/script.js:24 | a card's `textContent`: its text, then one cross per button; used by `Cards.SavedText` |
| Cards.SavedText | Javascript/script.js:24 | the text `saveState` records, characterised by `Cards.SavedTextOfClean`, `Cards.SavedTextOfTwoButtons`, `Cards.SavedTextOfUserCross` and `Cards.SavedTextMovesCross` |
| Cards.SavedTextOfClean | Javascript/script.js:22-25 | a card with trimmed text free of crosses and line breaks and with at most one button is saved with exactly its text |
| Cards.SavedTextOfTwoButtons | Javascript/script.js:24 | a card with two buttons would be saved with a stray cross, which is why the guard at line 76 matters |
| Cards.SavedTextOfUserCross | Javascript/script.js:24 | for a card whose text holds a cross, the text's cross is removed and the button's cross is kept |
| Cards.SavedTextMovesCross | Javascript/script.js:24 | a one-button card whose text is pre + ❌ + post, with no cross in pre and pre + post + ❌ already trimmed, is saved as pre + post + ❌ |
| BoardOps.FindIn | Javascript/script.js:151 | the first card of a list with the id, or none when no card in the list has it |
| BoardOps.Find | Javascript/script.js:151 | the first card with the id in document order; none exactly when no card has the id |
| BoardOps.FindOnly | Javascript/script.js:151 | when exactly one card has the id, the lookup finds that card |
| BoardOps.RemoveAt | Javascript/script.js:81 | `card.remove()`, characterised by `BoardOps.RemoveAtSpec` and `BoardOps.RemoveAtCards` |
| BoardOps.Flatten | Javascript/script.js:20-27 | all cards in document order, the collection the multiset lemmas count |
| BoardOps.RemoveAtCards | Javascript/script.js:81 | removing a card takes exactly that card out of the multiset of all cards |
| BoardOps.RemoveAtSpec | Javascript/script.js:81 | other lists are unchanged, the rest of the card's list keeps its order, and with unique ids the removed id is gone and ids stay unique |
| BoardOps.Append | Javascript/script.js:112 | `appendChild` of a new card, characterised by `BoardOps.AppendCards`, `BoardOps.AppendFresh` and `BoardOps.AppendKeeps` |
| BoardOps.AppendCards | Javascript/script.js:112 | appending a new card adds exactly that card to the multiset of all cards |
| BoardOps.AppendFresh | Javascript/script.js:109-112 | a new card `"card" + n` on a board whose ids are below n keeps ids unique and below n + 1, and its id was not on the board |
| BoardOps.AppendKeeps | Javascript/script.js:106-114 | appending the instrumented new card `"card" + n` keeps the list count; when ids were unique and all below n, they stay unique and all below n + 1; a button on every card, and at most one, is kept |
| BoardOps.Move | Javascript/script.js:152 | `appendChild` of a card already on the board, characterised by `BoardOps.MoveSpec`, `BoardOps.MoveUnique` and `BoardOps.MoveKeeps` |
| BoardOps.MoveSpec | Javascript/script.js:152 | the dropped card becomes the last card of the target; the source list keeps the rest in order; other lists are untouched; no card is created or lost; a drop on its own list moves the card to the end |
| BoardOps.MoveUnique | Javascript/script.js:151-152 | with unique ids, after the drop the card's id is found only at the end of the target, and ids stay unique |
| BoardOps.MoveKeeps | Javascript/script.js:149-152 | the drop keeps the list count, puts the card last in the target, and keeps unique ids and one button per card |
| BoardOps.AppendInstrumented | Javascript/script.js:112-114 | appending a card with one button keeps every card with exactly one button |
| BoardOps.RemoveMoveInstrumented | Javascript/script.js:80-83 | removing or moving a card keeps every card's buttons, so no card gains a second button |
| BoardOps.InstrumentAll | Javascript/script.js:88-91 | every markup card passes through `addCardFeatures`, after which every card has a button, and none has two unless it had two before |
| Persistence.IndexOf | Javascript/script.js:49 | the index holds the list id, and with distinct list ids it is the only such index |
| Persistence.DataOf | Javascript/script.js:22-25 | the record of one card, its id and `Cards.SavedText`; `Persistence.DataOfRebuilt` gives its round trip |
| Persistence.ListsOf | Javascript/script.js:20-27 | `state.lists`, characterised entry by entry by `Page.Board.CurrentSnapshot` and by `Persistence.SnapshotHasId` |
| Persistence.SnapshotOf | Javascript/script.js:13-27 | the snapshot `saveState` writes; `Persistence.SaveThenRestore` and `Persistence.RestoreThenSave` are its round trips |
| Persistence.RestoredCounter | Javascript/script.js:39 | the saved counter when it is present and non-zero, otherwise 4 |
| Persistence.Rebuilt | Javascript/script.js:53-60 | a recreated card has the saved id, the saved text after the `innerText` conversion (the text itself when it has no line break), and exactly one button |
| Persistence.RebuiltAll | Javascript/script.js:52-61 | an entry's cards are recreated one for one, in order |
| Persistence.Cleared | Javascript/script.js:42-45 | after the clearing loop every list is empty |
| Persistence.Refill | Javascript/script.js:49-61 | one entry of the refill: its cards appended to the list with its id, or nothing for an unknown id; characterised by `Persistence.RestoreColumns` |
| Persistence.Restore | Javascript/script.js:48-62 | the refill over all entries in snapshot order, characterised by `Persistence.RestoreColumns` |
| Persistence.RestoreColumns | Javascript/script.js:48-62 | after the refill each list holds its old cards followed by the cards of every entry with its id, in snapshot order; entries for unknown ids add nothing |
| Persistence.DataOfRebuilt | Javascript/script.js:22-25 | a card recreated from clean data (trimmed, no cross, no line break) is saved as that same data |
| Persistence.RestoreThenSave | Javascript/script.js:13-62 | restoring a snapshot that has a non-zero counter, one entry per page list in page order and clean texts, then saving, writes the same snapshot back |
| Persistence.RestoreThenSaveByList | Javascript/script.js:13-62 | for entries with distinct ids in any order, each page list is saved back with the cards of its entry, or empty when it has none, and a non-zero counter is kept |
| Persistence.SaveThenRestore | Javascript/script.js:13-62 | saving a board of clean texts with one button per card and a non-zero counter, then restoring, gives back the same board and counter |
| Persistence.RestoreInstrumented | Javascript/script.js:52-61 | every restored card has exactly one delete button |
| Persistence.SnapshotHasId | Javascript/script.js:20-27 | the snapshot holds a record with an id exactly when the board holds a card with it |
| Page.Board.constructor | Javascript/script.js:1-10 | the counter starts at 4 and the saved state is loaded; the markup cards are instrumented (lines 89-91), which shows on the page only when nothing was loaded |
| Page.Board.LoadSavedState | Javascript/script.js:33-67 | an empty or unreadable slot changes nothing; otherwise the counter is restored, every card removed, and the entries refilled in snapshot order with unknown ids skipped; a snapshot without lists leaves the board cleared |
| Page.Board.InstrumentMarkup | Javascript/script.js:88-91 | the loop leaves each list equal to `InstrumentAll` of the old lists |
| Page.Board.CurrentSnapshot | Javascript/script.js:13-27 | the snapshot holds the counter and, for each list in page order, its id and each card's id and saved text |
| Page.Board.SaveState | Javascript/script.js:13-30 | the slot now holds the current snapshot |
| Page.Board.AddTask | Javascript/script.js:102-118 | white-space input changes nothing; otherwise exactly one card `"card" + old counter`, with the trimmed input as its `innerText` and one button, is appended to list1, the counter goes up by one, other lists are unchanged, the input is cleared and the board saved; when ids were unique and all below the counter they stay so, and one button per card is kept |
| Page.Board.DragDrop | Javascript/script.js:149-156 | the first card with the id moves to the end of the target list as `MoveSpec` describes, the board is saved, and unique ids and one button per card are kept |
| Page.Board.RemoveCard | Javascript/script.js:80-83 | exactly that card is removed, all other cards stay in place, the board is saved, and with unique ids its id is no longer on the page |

## Left out

- `localStorage` and JSON are not modelled. The slot is a field that holds
  nothing, an unreadable value, or a parsed snapshot. The empty string counts
  as nothing. A value that parses to `null` counts as unreadable, since it
  throws before anything changes.
- Snapshots whose counter is not an integer are not modelled. A string, a
  fraction, or a number that JavaScript prints in exponent form (from 1e21)
  are all left out. A falsy non-number counter is modelled as a missing one.
- Snapshot entries whose `cards` is not an array are left out.
- The order `Object.entries` gives to list ids that look like array indices
  is not modelled. The model uses snapshot order.
- `getElementById` with a snapshot list id that names a card or another
  element rather than a list is not modelled. The model looks up list ids
  only.
- The model assumes the page has a `list1`. Adding a task on a page without
  one throws, and that case is excluded by `Board.WellFormed`.
- Event-listener registration, the Enter key (it clicks the same button,
  so it is `AddTask`), `dragStart`'s `dataTransfer` payload, `dragOver`,
  `dragEnter`, `dragLeave`, `dragEnd` and the `over` class are left out.
  They carry no board state. A drop is given the card id directly, and
  `DragDrop` requires that id to be on the board, since `appendChild(null)`
  throws.
- `clearAllData` is left out. It removes the slot and reloads the page.
- Characters are Unicode scalar values, not UTF-16 code units. Of the
  `innerText` setter only its line-break conversion is modelled; a card's
  `textContent` is its text plus one cross per button.
- A stored value that parses to something other than an object or `null`
  (a number, `true`, an array, a string) is not a separate case. The page
  treats it as a snapshot with neither counter nor lists, which the model
  writes as `Saved(Snapshot(None, None))`: the counter becomes 4 and every
  card is removed.
- Page.Board.AddTask: counters are unbounded integers, while `cardIdCounter`
  is a JavaScript number. From 2^53 on, `cardIdCounter++` no longer adds
  one, so for counters of absolute value 2^53 or more the `counter + 1` and
  fresh-id postconditions do not hold of the page. `LoadSavedState` accepts
  any integer counter, so such a counter can come from a snapshot.
- Page.Board.DragDrop: the ensures does not repeat the multiset of all cards
  being preserved. That follows from its `lists == Move(...)` postcondition
  and `BoardOps.MoveSpec`.
