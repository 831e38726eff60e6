/** Cards: their element ids, the delete button `addCardFeatures` appends,
    and the text `saveState` reads back from a card. */
module Cards {
  import opened Text

  /** A card element: its id, the text it was given (`innerText`), and the
      number of delete buttons appended to it. */
  datatype Card = Card(id: string, text: string, buttons: nat)

  function DigitChar(d: nat): (c: char)
    requires d < 10
    ensures '0' <= c <= '9'
  {
    (('0' as int) + d) as char
  }

  predicate AllDigits(d: string) {
    forall i :: 0 <= i < |d| ==> '0' <= d[i] <= '9'
  }

  /** The number a string of decimal digits denotes. */
  function Value(d: string): nat
    requires AllDigits(d)
  {
    if d == [] then 0 else 10 * Value(d[..|d| - 1]) + (d[|d| - 1] as int - '0' as int)
  }

  /** Decimal digits of `n`, most significant first, without leading zeros:
      the canonical spelling of `n`. */
  function Digits(n: nat): (r: string)
    ensures |r| >= 1 && AllDigits(r) && Value(r) == n
    ensures |r| > 1 ==> r[0] != '0'
  {
    if n < 10 then [DigitChar(n)]
    else
      var d := Digits(n / 10) + [DigitChar(n % 10)];
      assert d[..|d| - 1] == Digits(n / 10);
      d
  }

  /** `String(n)` for an integer: a minus sign exactly when `n` is negative,
      followed by the canonical digits of its magnitude. */
  function Decimal(n: int): (r: string)
    ensures |r| >= 1 && (r[0] == '-' <==> n < 0)
    ensures var d := if n < 0 then r[1..] else r;
      && |d| >= 1 && AllDigits(d) && Value(d) == (if n < 0 then -n else n)
      && (|d| > 1 ==> d[0] != '0')
  {
    if n < 0 then "-" + Digits(-n) else Digits(n)
  }

  /** The id `"card" + n` that the add-task handler gives a new card. */
  function CardId(n: int): string {
    "card" + Decimal(n)
  }

  /** Different counter values give different card ids, so ids drawn from an
      increasing counter never repeat. */
  lemma CardIdInjective(a: int, b: int)
    ensures CardId(a) == CardId(b) <==> a == b
  {
    if CardId(a) == CardId(b) {
      assert Decimal(a) == CardId(a)[4..] && Decimal(b) == CardId(b)[4..];
    }
  }

  /** `addCardFeatures`: a delete button is appended only when the card has none. */
  function Instrument(c: Card): (r: Card)
    ensures r.id == c.id && r.text == c.text
    ensures r.buttons >= 1
    ensures c.buttons >= 1 ==> r == c
    ensures c.buttons <= 1 ==> r.buttons == 1
  {
    if c.buttons == 0 then c.(buttons := 1) else c
  }

  /** The card's `textContent`: its text followed by one cross per delete button. */
  function Content(c: Card): string {
    c.text + seq(c.buttons, _ => Cross)
  }

  /** What `saveState` records as a card's text: the content with its first
      cross removed, then trimmed. */
  function SavedText(c: Card): string {
    Trim(RemoveFirst(Content(c), Cross))
  }

  /** Text that survives saving and restoring unchanged: trimmed, with no
      cross and no line break in it. */
  predicate CleanText(t: string) {
    IsTrimmed(t) && Cross !in t && NoBreaks(t)
  }

  /** A card with clean text and at most one delete button saves exactly its text. */
  lemma SavedTextOfClean(c: Card)
    requires CleanText(c.text) && c.buttons <= 1
    ensures SavedText(c) == c.text
  {
    if c.buttons == 0 {
      assert Content(c) == c.text;
      RemoveFirstAbsent(c.text, Cross);
    } else {
      assert Content(c) == c.text + [Cross];
      RemoveFirstOfTail(c.text, Cross);
    }
    TrimOfTrimmed(c.text);
  }

  /** Without the guard in `addCardFeatures`, a second button would leak its
      cross into the saved text. */
  lemma SavedTextOfTwoButtons(c: Card)
    requires CleanText(c.text) && c.buttons == 2
    ensures SavedText(c) == c.text + [Cross]
  {
    assert Content(c) == (c.text + [Cross]) + [Cross];
    assert RemoveFirst(Content(c), Cross) == c.text + [Cross] by {
      RemoveFirstBeforeTail(c.text + [Cross], Cross);
      RemoveFirstOfTail(c.text, Cross);
    }
    assert IsTrimmed(c.text + [Cross]);
    TrimOfTrimmed(c.text + [Cross]);
  }

  /** When the card's own text holds a cross, `replace` removes that one and
      the delete button's cross is the one that is saved, at the end. */
  lemma SavedTextOfUserCross(c: Card)
    requires Cross in c.text && c.buttons == 1
    ensures SavedText(c) == Trim(RemoveFirst(c.text, Cross) + [Cross])
  {
    assert Content(c) == c.text + [Cross];
    RemoveFirstBeforeTail(c.text, Cross);
  }

  /** A card whose text is `pre + "❌" + post`, with no cross in `pre`, is
      saved as `pre + post + "❌"`: for the input "a❌b" the saved text is
      "ab❌", so the user's cross moves to the end of the text. */
  lemma SavedTextMovesCross(c: Card, i: nat)
    requires c.buttons == 1 && i < |c.text| && c.text[i] == Cross && Cross !in c.text[..i]
    requires IsTrimmed(c.text[..i] + c.text[i + 1..] + [Cross])
    ensures SavedText(c) == c.text[..i] + c.text[i + 1..] + [Cross]
  {
    SavedTextOfUserCross(c);
    RemoveFirstAt(c.text, Cross, i);
    TrimOfTrimmed(c.text[..i] + c.text[i + 1..] + [Cross]);
  }
}
