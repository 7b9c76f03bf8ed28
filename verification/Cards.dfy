/** The study cards of a reply: what is accepted, and the ids it gets. Validation is a parameter. */
module Cards {
  import opened Wrappers
  import opened Numerals

  datatype Card<B> = Card(id: string, block: B)

  function CardId(n: nat): string {
    "ui_" + Render(n, Ten)
  }

  /**
   The positions are, in order, exactly those of the first n blocks that are valid; each has a card, and the ids of
   the cards are ui_1, ui_2 and so on.
   */
  ghost predicate AcceptedAt<R, B>(at: seq<nat>, raw: seq<R>, n: nat, validate: R -> Option<B>, cards: seq<Card<B>>)
    requires n <= |raw|
  {
    && |cards| == |at| && (forall i, j | 0 <= i < j < |at| :: at[i] < at[j])
    && (forall i | 0 <= i < |at| :: at[i] < n && validate(raw[at[i]]) == Some(cards[i].block))
    && (forall i | 0 <= i < |at| :: cards[i].id == "ui_" + Render(i + 1, Ten))
    && (forall p {:trigger p in at} | 0 <= p < n && validate(raw[p]).Some? :: p in at)
  }

  lemma AcceptedNext<R, B>(at: seq<nat>, raw: seq<R>, n: nat, validate: R -> Option<B>, cards: seq<Card<B>>)
    requires n < |raw| && AcceptedAt(at, raw, n, validate, cards)
    ensures var block := validate(raw[n]);
      if block.None? then AcceptedAt(at, raw, n + 1, validate, cards)
      else AcceptedAt(at + [n], raw, n + 1, validate, cards + [Card(CardId(|cards| + 1), block.value)])
  {
    assert (at + [n])[|at|] == n && forall p | p in at :: p in at + [n];
  }

  /** Every valid block in its order, with the ids ui_1, ui_2 and so on, which all differ. */
  method AcceptUiBlocks<R, B>(raw: seq<R>, validate: R -> Option<B>) returns (cards: seq<Card<B>>)
    ensures exists at :: AcceptedAt(at, raw, |raw|, validate, cards)
    ensures forall i, j | 0 <= i < j < |cards| :: cards[i].id != cards[j].id
  {
    cards := [];
    ghost var at: seq<nat> := [];
    for i := 0 to |raw|
      invariant AcceptedAt(at, raw, i, validate, cards)
    {
      AcceptedNext(at, raw, i, validate, cards);
      var block := validate(raw[i]);
      if block.Some? {
        cards := cards + [Card(CardId(|cards| + 1), block.value)];
        at := at + [i];
      }
    }
    forall i, j | 0 <= i < j < |cards|
      ensures cards[i].id != cards[j].id
    {
      CardIdsDiffer(i + 1, j + 1);
    }
  }

  lemma CardIdsDiffer(i: nat, j: nat)
    requires i != j
    ensures CardId(i) != CardId(j)
  {
    if CardId(i) == CardId(j) {
      assert Render(i, Ten) == CardId(i)[3..] == CardId(j)[3..] == Render(j, Ten);
      RenderInjective(i, j, Ten);
    }
  }
}
