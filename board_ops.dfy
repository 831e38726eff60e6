/** The board as a value: one sequence of cards per list, lists in page
    order, cards in child order. These are the changes the event handlers make
    to the page through `appendChild` and `remove`. */
module BoardOps {
  import opened Options
  import opened Cards

  /** The cards of each list, lists in page order. */
  type Lists = seq<seq<Card>>

  /** Where a card sits: its list and its index within that list. */
  datatype Pos = Pos(list: nat, index: nat)

  predicate ValidPos(b: Lists, l: int, i: int) {
    0 <= l < |b| && 0 <= i < |b[l]|
  }

  /** Position (l1, i1) comes before (l2, i2) in document order. */
  predicate Before(l1: int, i1: int, l2: int, i2: int) {
    l1 < l2 || (l1 == l2 && i1 < i2)
  }

  ghost predicate HasId(b: Lists, id: string) {
    exists l, i :: ValidPos(b, l, i) && b[l][i].id == id
  }

  /** No two cards on the board share an id. */
  ghost predicate UniqueIds(b: Lists) {
    forall l1, i1, l2, i2 ::
      ValidPos(b, l1, i1) && ValidPos(b, l2, i2) && b[l1][i1].id == b[l2][i2].id
      ==> l1 == l2 && i1 == i2
  }

  /** Every card id of the form "card" + k has k below `n`, so the id the
      counter hands out next is not on the board. */
  ghost predicate IdsBelow(b: Lists, n: int) {
    forall l, i, k :: ValidPos(b, l, i) && b[l][i].id == CardId(k) ==> k < n
  }

  /** Every card carries a delete button. */
  ghost predicate AllInstrumented(b: Lists) {
    forall l, i :: ValidPos(b, l, i) ==> b[l][i].buttons >= 1
  }

  /** No card carries more than one delete button. */
  ghost predicate OneButtonEach(b: Lists) {
    forall l, i :: ValidPos(b, l, i) ==> b[l][i].buttons <= 1
  }

  /** Index of the first card in `cards` with the given id. */
  function FindIn(cards: seq<Card>, id: string): (r: Option<nat>)
    ensures r.Some? ==> r.value < |cards| && cards[r.value].id == id
    ensures r.Some? ==> forall j :: 0 <= j < r.value ==> cards[j].id != id
    ensures r.None? ==> forall j :: 0 <= j < |cards| ==> cards[j].id != id
  {
    if cards == [] then None
    else if cards[0].id == id then Some(0)
    else
      match FindIn(cards[1..], id)
      case Some(j) => Some(j + 1)
      case None => None
  }

  /** `document.getElementById(id)` over the cards: the first card with that
      id in document order, if any. */
  function Find(b: Lists, id: string): (r: Option<Pos>)
    ensures r.Some? ==> ValidPos(b, r.value.list, r.value.index)
                        && b[r.value.list][r.value.index].id == id
    ensures r.Some? ==> forall l, i :: ValidPos(b, l, i) && Before(l, i, r.value.list, r.value.index)
                                       ==> b[l][i].id != id
    ensures r.None? <==> !HasId(b, id)
  {
    if b == [] then None
    else
      match FindIn(b[0], id)
      case Some(i) => Some(Pos(0, i))
      case None =>
        match Find(b[1..], id)
        case Some(p) =>
          assert forall l, i :: ValidPos(b, l, i) && 0 < l ==> b[l][i] == b[1..][l - 1][i];
          Some(Pos(p.list + 1, p.index))
        case None =>
          assert forall l, i :: ValidPos(b, l, i) && 0 < l ==> b[l][i] == b[1..][l - 1][i];
          None
  }

  /** `card.remove()`: the card at (l, i) leaves its list. */
  function RemoveAt(b: Lists, l: nat, i: nat): Lists
    requires ValidPos(b, l, i)
  {
    b[l := b[l][..i] + b[l][i + 1..]]
  }

  /** `list.appendChild(card)` for a card not yet on the board. */
  function Append(b: Lists, t: nat, c: Card): Lists
    requires t < |b|
  {
    b[t := b[t] + [c]]
  }

  /** `target.appendChild(card)` for a card already on the board: it is
      detached from its list and becomes the last child of `t`. */
  function Move(b: Lists, l: nat, i: nat, t: nat): Lists
    requires ValidPos(b, l, i) && t < |b|
  {
    Append(RemoveAt(b, l, i), t, b[l][i])
  }

  /** All cards in document order. */
  function Flatten(b: Lists): seq<Card> {
    if b == [] then [] else b[0] + Flatten(b[1..])
  }

  /** Replacing one list changes the multiset of all cards by exactly the
      cards that list lost and gained. */
  lemma {:induction false} FlattenUpdate(b: Lists, k: nat, v: seq<Card>)
    requires k < |b|
    ensures multiset(Flatten(b[k := v])) + multiset(b[k]) == multiset(Flatten(b)) + multiset(v)
  {
    var b' := b[k := v];
    assert Flatten(b') == b'[0] + Flatten(b'[1..]);
    assert Flatten(b) == b[0] + Flatten(b[1..]);
    if k == 0 {
      assert b'[1..] == b[1..];
    } else {
      assert b'[0] == b[0] && b[1..][k - 1] == b[k];
      assert b'[1..] == b[1..][k - 1 := v];
      FlattenUpdate(b[1..], k - 1, v);
      var rest', rest := multiset(Flatten(b[1..][k - 1 := v])), multiset(Flatten(b[1..]));
      assert multiset(Flatten(b')) == multiset(b[0]) + rest';
      assert multiset(Flatten(b)) == multiset(b[0]) + rest;
      forall o: Card
        ensures (multiset(Flatten(b')) + multiset(b[k]))[o] == (multiset(Flatten(b)) + multiset(v))[o]
      {
        assert (rest' + multiset(b[k]))[o] == (rest + multiset(v))[o];
      }
    }
  }

  /** Taking the element at `i` out of a sequence takes exactly that element. */
  lemma MultisetRemove(s: seq<Card>, i: nat)
    requires i < |s|
    ensures multiset(s) == multiset(s[..i] + s[i + 1..]) + multiset{s[i]}
  {
    assert s == s[..i] + [s[i]] + s[i + 1..];
  }

  /** Cancelling the cards that were replaced from both sides of a swap. */
  lemma MultisetCancel(after: multiset<Card>, before: multiset<Card>, lost: multiset<Card>, gained: multiset<Card>, x: Card)
    requires after + lost == before + gained && lost == gained + multiset{x}
    ensures after + multiset{x} == before
  {
    forall o: Card
      ensures (after + multiset{x})[o] == before[o]
    {
      assert (after + lost)[o] == (before + gained)[o];
    }
  }

  /** Removing a card takes exactly that card out of the board. */
  lemma RemoveAtCards(b: Lists, l: nat, i: nat)
    requires ValidPos(b, l, i)
    ensures multiset(Flatten(RemoveAt(b, l, i))) + multiset{b[l][i]} == multiset(Flatten(b))
  {
    var v := b[l][..i] + b[l][i + 1..];
    FlattenUpdate(b, l, v);
    MultisetRemove(b[l], i);
    MultisetCancel(multiset(Flatten(b[l := v])), multiset(Flatten(b)), multiset(b[l]), multiset(v), b[l][i]);
  }

  /** Removing the card at (l, i) leaves every other list as it was and
      keeps the order of the rest of list l. With unique ids, the removed
      card's id is no longer on the board and ids stay unique. */
  lemma RemoveAtSpec(b: Lists, l: nat, i: nat)
    requires ValidPos(b, l, i)
    ensures |RemoveAt(b, l, i)| == |b|
    ensures forall k :: 0 <= k < |b| && k != l ==> RemoveAt(b, l, i)[k] == b[k]
    ensures RemoveAt(b, l, i)[l] == b[l][..i] + b[l][i + 1..]
    ensures UniqueIds(b) ==> UniqueIds(RemoveAt(b, l, i)) && !HasId(RemoveAt(b, l, i), b[l][i].id)
  {
    var r := RemoveAt(b, l, i);
    // Where each position of r came from in b.
    assert forall k, j :: ValidPos(r, k, j) && k != l ==> r[k][j] == b[k][j];
    assert forall j :: 0 <= j < i ==> r[l][j] == b[l][j];
    assert forall j :: i <= j < |r[l]| ==> r[l][j] == b[l][j + 1];
  }

  /** Appending a card adds exactly that card. */
  lemma AppendCards(b: Lists, t: nat, c: Card)
    requires t < |b|
    ensures multiset(Flatten(Append(b, t, c))) == multiset(Flatten(b)) + multiset{c}
  {
    FlattenUpdate(b, t, b[t] + [c]);
    assert multiset(b[t] + [c]) == multiset(b[t]) + multiset{c};
    var after, before := multiset(Flatten(Append(b, t, c))), multiset(Flatten(b));
    forall o: Card
      ensures after[o] == (before + multiset{c})[o]
    {
      assert (after + multiset(b[t]))[o] == (before + multiset(b[t] + [c]))[o];
    }
  }

  /** The card the add-task handler creates, with id "card" + n, keeps ids
      unique and is the only card whose id reaches the counter. */
  lemma AppendFresh(b: Lists, t: nat, c: Card, n: int)
    requires t < |b| && c.id == CardId(n)
    requires UniqueIds(b) && IdsBelow(b, n)
    ensures UniqueIds(Append(b, t, c)) && IdsBelow(Append(b, t, c), n + 1)
    ensures !HasId(b, c.id)
  {
    AppendBelow(b, t, c, n);
    AppendUnique(b, t, c);
  }

  /** Appending "card" + n to a board whose ids are below n leaves every
      id below n + 1. */
  lemma AppendBelow(b: Lists, t: nat, c: Card, n: int)
    requires t < |b| && c.id == CardId(n) && IdsBelow(b, n)
    ensures IdsBelow(Append(b, t, c), n + 1)
  {
    var r := Append(b, t, c);
    forall l, i, k | ValidPos(r, l, i) && r[l][i].id == CardId(k)
      ensures k < n + 1
    {
      if l == t && i == |b[t]| {
        CardIdInjective(k, n);
      } else {
        assert r[l][i] == b[l][i];
      }
    }
  }

  /** What the add-task handler relies on when it appends its new card with
      id "card" + n and one delete button to list t. */
  lemma AppendKeeps(b: Lists, t: nat, c: Card, n: int)
    requires t < |b| && c.id == CardId(n) && c.buttons == 1
    ensures |Append(b, t, c)| == |b|
    ensures UniqueIds(b) && IdsBelow(b, n) ==> UniqueIds(Append(b, t, c)) && IdsBelow(Append(b, t, c), n + 1)
    ensures AllInstrumented(b) ==> AllInstrumented(Append(b, t, c))
    ensures OneButtonEach(b) ==> OneButtonEach(Append(b, t, c))
  {
    if UniqueIds(b) && IdsBelow(b, n) {
      AppendFresh(b, t, c, n);
    }
    AppendInstrumented(b, t, c);
  }

  /** Dropping the card at (l, i) on list t: it becomes the last card of t,
      lists other than l and t are untouched, the rest of l and of t keep
      their order, and no card is created or lost. */
  lemma MoveSpec(b: Lists, l: nat, i: nat, t: nat)
    requires ValidPos(b, l, i) && t < |b|
    ensures |Move(b, l, i, t)| == |b|
    ensures Move(b, l, i, t)[t] == (if l == t then b[l][..i] + b[l][i + 1..] else b[t]) + [b[l][i]]
    ensures l != t ==> Move(b, l, i, t)[l] == b[l][..i] + b[l][i + 1..]
    ensures forall k :: 0 <= k < |b| && k != l && k != t ==> Move(b, l, i, t)[k] == b[k]
    ensures multiset(Flatten(Move(b, l, i, t))) == multiset(Flatten(b))
  {
    RemoveAtSpec(b, l, i);
    RemoveAtCards(b, l, i);
    AppendCards(RemoveAt(b, l, i), t, b[l][i]);
  }

  /** Appending a card whose id is not on the board keeps ids unique, and
      the new last card of `t` is the only one with that id. */
  lemma AppendUnique(b: Lists, t: nat, c: Card)
    requires t < |b| && UniqueIds(b) && !HasId(b, c.id)
    ensures UniqueIds(Append(b, t, c))
    ensures forall k, j :: ValidPos(Append(b, t, c), k, j) && Append(b, t, c)[k][j].id == c.id
                           ==> k == t && j == |b[t]|
  {
    var r := Append(b, t, c);
    assert forall k, j :: ValidPos(r, k, j) && !(k == t && j == |b[t]|) ==> ValidPos(b, k, j) && r[k][j] == b[k][j];
  }

  /** When exactly one card carries `id`, `getElementById` finds that one. */
  lemma FindOnly(b: Lists, id: string, l: nat, i: nat)
    requires ValidPos(b, l, i) && b[l][i].id == id
    requires forall k, j :: ValidPos(b, k, j) && b[k][j].id == id ==> k == l && j == i
    ensures Find(b, id) == Some(Pos(l, i))
  {
    assert HasId(b, id);
  }

  /** With unique ids, after the drop the moved card's id is found only at
      the end of the target list, and ids stay unique. */
  lemma MoveUnique(b: Lists, l: nat, i: nat, t: nat)
    requires ValidPos(b, l, i) && t < |b| && UniqueIds(b)
    ensures UniqueIds(Move(b, l, i, t))
    ensures forall k, j :: ValidPos(Move(b, l, i, t), k, j) && Move(b, l, i, t)[k][j].id == b[l][i].id
                           ==> k == t && j == |Move(b, l, i, t)[t]| - 1
    ensures Find(Move(b, l, i, t), b[l][i].id) == Some(Pos(t, |Move(b, l, i, t)[t]| - 1))
  {
    var x, s := b[l][i], RemoveAt(b, l, i);
    RemoveAtSpec(b, l, i);
    AppendUnique(s, t, x);
    FindOnly(Append(s, t, x), x.id, t, |s[t]|);
  }

  /** What the drop handler relies on: the list count is kept, the moved
      card is the last card of `t`, and unique ids and delete buttons are
      preserved. */
  lemma MoveKeeps(b: Lists, l: nat, i: nat, t: nat)
    requires ValidPos(b, l, i) && t < |b|
    ensures |Move(b, l, i, t)| == |b|
    ensures Move(b, l, i, t)[t] != [] && Move(b, l, i, t)[t][|Move(b, l, i, t)[t]| - 1] == b[l][i]
    ensures UniqueIds(b) ==> UniqueIds(Move(b, l, i, t))
    ensures AllInstrumented(b) ==> AllInstrumented(Move(b, l, i, t))
    ensures OneButtonEach(b) ==> OneButtonEach(Move(b, l, i, t))
  {
    if UniqueIds(b) {
      MoveUnique(b, l, i, t);
    }
    RemoveMoveInstrumented(b, l, i, t);
  }

  /** Appending keeps every card instrumented when the new card is. */
  lemma AppendInstrumented(b: Lists, t: nat, c: Card)
    requires t < |b|
    ensures AllInstrumented(b) && c.buttons >= 1 ==> AllInstrumented(Append(b, t, c))
    ensures OneButtonEach(b) && c.buttons <= 1 ==> OneButtonEach(Append(b, t, c))
  {
    var r := Append(b, t, c);
    assert forall l, i :: ValidPos(r, l, i) && !(l == t && i == |b[t]|) ==> ValidPos(b, l, i) && r[l][i] == b[l][i];
  }

  /** Removing a card or moving one keeps every card's buttons as they were. */
  lemma RemoveMoveInstrumented(b: Lists, l: nat, i: nat, t: nat)
    requires ValidPos(b, l, i) && t < |b|
    ensures AllInstrumented(b) ==> AllInstrumented(RemoveAt(b, l, i)) && AllInstrumented(Move(b, l, i, t))
    ensures OneButtonEach(b) ==> OneButtonEach(RemoveAt(b, l, i)) && OneButtonEach(Move(b, l, i, t))
  {
    RemoveAtSpec(b, l, i);
    var s := RemoveAt(b, l, i);
    assert forall j :: 0 <= j < |s[l]| ==> s[l][j] == b[l][if j < i then j else j + 1];
    AppendInstrumented(s, t, b[l][i]);
  }

  /** `addCardFeatures` applied to every card (the start-up loop over the
      markup's cards). */
  function InstrumentAll(b: Lists): (r: Lists)
    ensures |r| == |b| && forall k :: 0 <= k < |b| ==> |r[k]| == |b[k]|
    ensures forall k, q :: ValidPos(b, k, q) ==> r[k][q] == Instrument(b[k][q])
    ensures AllInstrumented(r)
    ensures OneButtonEach(b) ==> OneButtonEach(r)
  {
    seq(|b|, k requires 0 <= k < |b| => seq(|b[k]|, q requires 0 <= q < |b[k]| => Instrument(b[k][q])))
  }
}
