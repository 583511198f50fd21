/**
 * The deck builder: the deck being edited, with a limit on the number of cards in it
 * (30) and on the copies of one card (3). The card grid, the deck panel and the info
 * popup are user interface and are not modelled.
 */
module CardCollection {
  import opened Wrappers
  import opened CardData
  import opened Decks
  import opened Tokens
  import opened SaveDecks

  const DefaultDeckLimit := 30
  const DefaultCardLimit := 3

  /** The counts of the keys in `order`, added up front to back. */
  function SumCounts(d: Deck, order: seq<string>): int
    requires forall i :: 0 <= i < |order| ==> order[i] in d
  {
    if order == [] then 0 else SumCounts(d, order[..|order| - 1]) + d[order[|order| - 1]].count
  }

  lemma {:induction false} SumCountsFrame(d: Deck, e: Deck, order: seq<string>)
    requires forall i :: 0 <= i < |order| ==> order[i] in d && order[i] in e && d[order[i]] == e[order[i]]
    ensures SumCounts(d, order) == SumCounts(e, order)
  {
    if order != [] {
      SumCountsFrame(d, e, order[..|order| - 1]);
    }
  }

  /** Adding up the counts in any enumeration order gives the deck's total. */
  lemma {:induction false} SumCountsTotal(d: Deck, order: seq<string>)
    requires IsOrder(d, order)
    ensures SumCounts(d, order) == Total(d)
  {
    if order == [] {
      assert d.Keys == {};
    } else {
      var last := order[|order| - 1];
      var init := order[..|order| - 1];
      var rest := d - {last};
      assert IsOrder(rest, init) by {
        forall i | 0 <= i < |init| ensures init[i] in rest {
          assert init[i] == order[i];
        }
        forall n | n in rest ensures n in init {
          var t :| 0 <= t < |order| && order[t] == n;
          assert t != |order| - 1;
          assert init[t] == n;
        }
        forall i, j | 0 <= i < j < |init| ensures init[i] != init[j] {
          assert init[i] == order[i] && init[j] == order[j];
        }
      }
      SumCountsFrame(d, rest, init);
      SumCountsTotal(rest, init);
      TotalRemove(d, last);
    }
  }

  /** AddCardToDeck's effect on the deck. */
  ghost function Added(d: Deck, c: CardInfo, deckLimit: int, cardLimit: int): Deck {
    if Total(d) >= deckLimit then d
    else if c.name in d then (if d[c.name].count < cardLimit then Insert(d, c) else d)
    else Insert(d, c)
  }

  /** RemoveCardFromDeck's effect on the deck. */
  function Removed(d: Deck, c: CardInfo): Deck {
    if c.name !in d then d
    else if d[c.name].count - 1 <= 0 then d - {c.name}
    else d[c.name := d[c.name].(count := d[c.name].count - 1)]
  }

  /** A deck as the builder keeps it: filed by Name, each count between 1 and the card limit. */
  ghost predicate Within(d: Deck, deckLimit: int, cardLimit: int) {
    WellKeyed(d) && PositiveCounts(d)
    && (forall n :: n in d ==> d[n].count <= cardLimit)
    && Total(d) <= deckLimit
  }

  /**
   * Adding a card: nothing happens once the deck holds deckLimit cards or when the card
   * already has cardLimit copies; otherwise the deck gains exactly one copy of it (a new
   * card comes in with count 1) and nothing else changes.
   */
  lemma AddedEffect(d: Deck, c: CardInfo, deckLimit: int, cardLimit: int)
    ensures var grows := Total(d) < deckLimit && (c.name !in d || d[c.name].count < cardLimit);
      && (grows ==> Total(Added(d, c, deckLimit, cardLimit)) == Total(d) + 1)
      && (!grows ==> Added(d, c, deckLimit, cardLimit) == d)
      && (grows && c.name !in d ==> Added(d, c, deckLimit, cardLimit)[c.name] == Entry(c, 1))
      && (grows && c.name in d ==> Added(d, c, deckLimit, cardLimit)[c.name].count == d[c.name].count + 1)
      && Added(d, c, deckLimit, cardLimit) - {c.name} == d - {c.name}
  {
    if c.name in d {
      TotalUpdate(d, c.name, d[c.name].(count := d[c.name].count + 1));
    } else {
      TotalUpdate(d, c.name, Entry(c, 1));
    }
  }

  /** Adding a card keeps both limits and the Name keying, given a card limit of at least 1. */
  lemma AddedKeepsLimits(d: Deck, c: CardInfo, deckLimit: int, cardLimit: int)
    requires Within(d, deckLimit, cardLimit) && cardLimit >= 1
    ensures Within(Added(d, c, deckLimit, cardLimit), deckLimit, cardLimit)
  {
    AddedEffect(d, c, deckLimit, cardLimit);
  }

  /**
   * Removing a card present in a deck with positive counts takes away exactly one copy,
   * dropping the card when that was the last; an absent card changes nothing.
   */
  lemma RemovedEffect(d: Deck, c: CardInfo)
    requires PositiveCounts(d)
    ensures c.name !in d ==> Removed(d, c) == d
    ensures c.name in d ==> Total(Removed(d, c)) == Total(d) - 1
    ensures c.name in d && d[c.name].count == 1 ==> c.name !in Removed(d, c)
    ensures c.name in d && d[c.name].count > 1 ==> Removed(d, c)[c.name].count == d[c.name].count - 1
    ensures Removed(d, c) - {c.name} == d - {c.name}
  {
    if c.name in d {
      if d[c.name].count - 1 <= 0 {
        TotalRemoveKey(d, c.name);
      } else {
        TotalUpdate(d, c.name, d[c.name].(count := d[c.name].count - 1));
      }
    }
  }

  lemma RemovedKeepsLimits(d: Deck, c: CardInfo, deckLimit: int, cardLimit: int)
    requires Within(d, deckLimit, cardLimit)
    ensures Within(Removed(d, c), deckLimit, cardLimit)
  {
    RemovedEffect(d, c);
  }

  /** The name a deck is saved under: the typed text, or "New Deck" when none was typed. */
  function DeckNameOf(text: string): (r: string)
    ensures |text| > 0 ==> r == text
    ensures |text| == 0 ==> r == "New Deck"
  {
    if |text| > 0 then text else "New Deck"
  }

  /** A saved deck always has a non-empty name. */
  lemma DeckNameNonEmpty(text: string)
    ensures |DeckNameOf(text)| > 0
  {
  }

  class CardCollectionManager {
    var deckLimit: int
    var cardLimit: int
    var currentDeck: Deck
    /** The deck name input field's text. */
    var deckNameText: string

    /** Init: an empty deck; the inspector defaults for the limits. */
    constructor()
      ensures deckLimit == DefaultDeckLimit && cardLimit == DefaultCardLimit
      ensures currentDeck == map[] && deckNameText == ""
    {
      deckLimit := DefaultDeckLimit;
      cardLimit := DefaultCardLimit;
      currentDeck := map[];
      deckNameText := "";
    }

    /** CardsInDeck: the sum of the counts, over the dictionary's values in order. */
    method CardsInDeck(order: seq<string>) returns (cardsInDeck: int)
      requires IsOrder(currentDeck, order)
      ensures cardsInDeck == Total(currentDeck)
    {
      cardsInDeck := 0;
      var k := 0;
      while k < |order|
        invariant 0 <= k <= |order|
        invariant cardsInDeck == SumCounts(currentDeck, order[..k])
      {
        cardsInDeck := cardsInDeck + currentDeck[order[k]].count;
        assert order[..k + 1][..k] == order[..k];
        k := k + 1;
      }
      assert order[..|order|] == order;
      SumCountsTotal(currentDeck, order);
    }

    /** AddCardToDeck, with the deck keyed by Name; the deck panel refresh is not modelled. */
    method AddCardToDeck(cardInfo: CardInfo, order: seq<string>)
      requires IsOrder(currentDeck, order)
      modifies this
      ensures currentDeck == Added(old(currentDeck), cardInfo, deckLimit, cardLimit)
      ensures deckLimit == old(deckLimit) && cardLimit == old(cardLimit)
      ensures deckNameText == old(deckNameText)
    {
      var cardsInDeck := CardsInDeck(order);
      if cardsInDeck >= deckLimit {
        return;
      }
      if cardInfo.name in currentDeck {
        var value := currentDeck[cardInfo.name].count;
        if value < cardLimit {
          currentDeck := currentDeck[cardInfo.name := currentDeck[cardInfo.name].(count := value + 1)];
        }
      } else {
        currentDeck := currentDeck[cardInfo.name := Entry(cardInfo, 1)];
      }
    }

    /** RemoveCardFromDeck; the deck panel refresh is not modelled. */
    method RemoveCardFromDeck(cardInfo: CardInfo)
      modifies this
      ensures currentDeck == Removed(old(currentDeck), cardInfo)
      ensures deckLimit == old(deckLimit) && cardLimit == old(cardLimit)
      ensures deckNameText == old(deckNameText)
    {
      if cardInfo.name in currentDeck {
        currentDeck := currentDeck[cardInfo.name := currentDeck[cardInfo.name].(count := currentDeck[cardInfo.name].count - 1)];
        if currentDeck[cardInfo.name].count <= 0 {
          currentDeck := currentDeck - {cardInfo.name};
        }
      }
    }

    function DeckName(): (r: string)
      reads this
      ensures r == DeckNameOf(deckNameText)
    {
      if |deckNameText| > 0 then deckNameText else "New Deck"
    }

    /**
     * SaveDeck: writes the deck under its name only when it holds exactly deckLimit cards;
     * otherwise nothing is stored.
     */
    method SaveDeck(store: DeckStore, order: seq<string>) returns (saved: bool)
      requires IsOrder(currentDeck, order)
      modifies store
      ensures saved <==> Total(currentDeck) == deckLimit
      ensures saved ==> store.files == old(store.files)[DeckFilePath(store.dataPath, DeckName()) := TokensOf(Expand(currentDeck, order))]
      ensures !saved ==> store.files == old(store.files)
    {
      var cardsInDeck := CardsInDeck(order);
      if cardsInDeck == deckLimit {
        SaveDeckToFile(store, currentDeck, order, DeckName());
        saved := true;
      } else {
        saved := false;
      }
    }

    /**
     * LoadDeck: clears the deck, then copies every entry of the loaded dictionary and sets
     * the name field. A null dictionary throws once the deck has been cleared; a null name
     * leaves the field empty.
     */
    method LoadDeck(deckToLoad: DeckChoice, order: seq<string>) returns (threw: bool)
      requires deckToLoad.deck.Some? ==> IsOrder(deckToLoad.deck.value, order)
      modifies this
      ensures threw <==> deckToLoad.deck.None?
      ensures threw ==> currentDeck == map[] && deckNameText == old(deckNameText)
      ensures !threw ==> currentDeck == deckToLoad.deck.value
      ensures !threw ==> deckNameText == if deckToLoad.name.Some? then deckToLoad.name.value else ""
      ensures deckLimit == old(deckLimit) && cardLimit == old(cardLimit)
    {
      currentDeck := map[];
      if deckToLoad.deck.None? {
        return true;
      }
      var deck := deckToLoad.deck.value;
      var k := 0;
      while k < |order|
        invariant 0 <= k <= |order|
        invariant deckLimit == old(deckLimit) && cardLimit == old(cardLimit)
        invariant forall n :: n in currentDeck <==> n in order[..k]
        invariant forall n :: n in currentDeck ==> n in deck && currentDeck[n] == deck[n]
      {
        var entry := deck[order[k]];
        currentDeck := currentDeck[order[k] := Entry(entry.card, entry.count)];
        k := k + 1;
      }
      assert order[..|order|] == order;
      deckNameText := if deckToLoad.name.Some? then deckToLoad.name.value else "";
      threw := false;
    }
  }
}
