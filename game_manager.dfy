/**
 * The game manager keeps each player's chosen deck and the draw queue built from it.
 * A deck choice is a pair of a dictionary and a name, either of which may be null; the
 * pair with both null is the `default` value the setters compare against. The order in
 * which the runtime enumerates a dictionary and the indices drawn from `System.Random`
 * are parameters.
 */
module GameManagement {
  import opened Wrappers
  import opened CardData
  import opened Decks

  /**
   * A fresh queue holding, for each key in enumeration order, `count` copies of its card:
   * the dictionary's layout.
   */
  method CreateCardQueue(deck: Deck, order: seq<string>) returns (q: CardQueue)
    requires IsOrder(deck, order)
    ensures fresh(q)
    ensures q.items == Expand(deck, order)
  {
    q := new CardQueue();
    var k := 0;
    while k < |order|
      invariant 0 <= k <= |order|
      invariant q.items == Expand(deck, order[..k])
    {
      var entry := deck[order[k]];
      var i := 0;
      while i < entry.count
        invariant 0 <= i <= if entry.count < 0 then 0 else entry.count
        invariant q.items == Expand(deck, order[..k]) + Repeat(entry.card, i)
      {
        q.Enqueue(entry.card);
        RepeatSnoc(entry.card, i);
        i := i + 1;
      }
      assert order[..k + 1] == order[..k] + [order[k]];
      ExpandConcat(deck, order[..k], [order[k]]);
      assert Expand(deck, [order[k]]) == Repeat(entry.card, entry.count) + [];
      k := k + 1;
    }
    assert order[..|order|] == order;
  }

  /** The list with the elements at i and j exchanged, through a temporary. */
  function Swap(s: seq<CardInfo>, i: int, j: int): (r: seq<CardInfo>)
    requires 0 <= i < |s| && 0 <= j < |s|
    ensures |r| == |s| && r[i] == s[j] && r[j] == s[i]
    ensures forall k :: 0 <= k < |s| && k != i && k != j ==> r[k] == s[k]
  {
    s[i := s[j]][j := s[i]]
  }

  lemma SwapPermutes(s: seq<CardInfo>, i: int, j: int)
    requires 0 <= i < |s| && 0 <= j < |s|
    ensures multiset(Swap(s, i, j)) == multiset(s)
  {
    var t := s[i := s[j]];
    assert multiset(t) == multiset(s) - multiset{s[i]} + multiset{s[j]};
    assert t[j] == s[j];
    assert multiset(t[j := s[i]]) == multiset(t) - multiset{s[j]} + multiset{s[i]};
  }

  /** The draws Random.Next(0, i + 1) can return: draws[i] lies in [0, i]. */
  predicate ValidDraws(draws: seq<int>, n: int) {
    |draws| == n && forall i :: 0 <= i < n ==> 0 <= draws[i] <= i
  }

  /** The Fisher–Yates steps at indices i, i − 1, ..., 1, each swapping with its draw. */
  function ShuffleFrom(s: seq<CardInfo>, draws: seq<int>, i: int): (r: seq<CardInfo>)
    requires ValidDraws(draws, |s|) && i < |s|
    ensures |r| == |s|
    decreases i
  {
    if i <= 0 then s else ShuffleFrom(Swap(s, i, draws[i]), draws, i - 1)
  }

  /** The whole shuffle, from the last index down to 1. */
  function Shuffle(s: seq<CardInfo>, draws: seq<int>): seq<CardInfo>
    requires ValidDraws(draws, |s|)
  {
    ShuffleFrom(s, draws, |s| - 1)
  }

  /** The shuffle rearranges the cards: same length, same multiset. */
  lemma {:induction false} ShufflePermutes(s: seq<CardInfo>, draws: seq<int>, i: int)
    requires ValidDraws(draws, |s|) && i < |s|
    ensures multiset(ShuffleFrom(s, draws, i)) == multiset(s)
    decreases i
  {
    if i > 0 {
      SwapPermutes(s, i, draws[i]);
      ShufflePermutes(Swap(s, i, draws[i]), draws, i - 1);
    }
  }

  /** Steps from i downward never touch the positions above i. */
  lemma {:induction false} ShuffleKeepsAbove(s: seq<CardInfo>, draws: seq<int>, i: int, k: int)
    requires ValidDraws(draws, |s|) && 0 <= i < k < |s|
    ensures ShuffleFrom(s, draws, i)[k] == s[k]
    decreases i
  {
    if i > 0 {
      ShuffleKeepsAbove(Swap(s, i, draws[i]), draws, i - 1, k);
    }
  }

  /**
   * Position i ends up holding what stood at draws[i] when step i ran, i.e. after the
   * steps above it; the last position holds the element drawn first.
   */
  lemma ShuffleSettles(s: seq<CardInfo>, draws: seq<int>)
    requires ValidDraws(draws, |s|) && |s| >= 2
    ensures |Shuffle(s, draws)| == |s|
    ensures Shuffle(s, draws)[|s| - 1] == s[draws[|s| - 1]]
  {
    var n := |s|;
    ShuffleKeepsAbove(Swap(s, n - 1, draws[n - 1]), draws, n - 2, n - 1);
  }

  class GameManager {
    var currentDeck1: DeckChoice
    var currentDeck2: DeckChoice
    var cardQueue1: CardQueue?
    var cardQueue2: CardQueue?

    constructor()
      ensures currentDeck1 == NoDeck && currentDeck2 == NoDeck
      ensures cardQueue1 == null && cardQueue2 == null
    {
      currentDeck1 := NoDeck;
      currentDeck2 := NoDeck;
      cardQueue1 := null;
      cardQueue2 := null;
    }

    /**
     * Stores the choice; a non-default choice rebuilds player 1's queue from its
     * dictionary, which throws when the dictionary part is null. The change event and
     * the log line are not modelled.
     */
    method SetCurrentDeck1(value: DeckChoice, order: seq<string>) returns (threw: bool)
      requires value.deck.Some? ==> IsOrder(value.deck.value, order)
      modifies this
      ensures currentDeck1 == value && currentDeck2 == old(currentDeck2)
      ensures cardQueue2 == old(cardQueue2)
      ensures threw <==> value != NoDeck && value.deck.None?
      ensures value == NoDeck || threw ==> cardQueue1 == old(cardQueue1)
      ensures value != NoDeck && !threw ==>
        cardQueue1 != null && fresh(cardQueue1) && cardQueue1.items == Expand(value.deck.value, order)
    {
      currentDeck1 := value;
      threw := false;
      if value != NoDeck {
        if value.deck.None? {
          threw := true;
        } else {
          cardQueue1 := CreateCardQueue(value.deck.value, order);
        }
      }
    }

    /** As SetCurrentDeck1, for player 2, without the event. */
    method SetCurrentDeck2(value: DeckChoice, order: seq<string>) returns (threw: bool)
      requires value.deck.Some? ==> IsOrder(value.deck.value, order)
      modifies this
      ensures currentDeck2 == value && currentDeck1 == old(currentDeck1)
      ensures cardQueue1 == old(cardQueue1)
      ensures threw <==> value != NoDeck && value.deck.None?
      ensures value == NoDeck || threw ==> cardQueue2 == old(cardQueue2)
      ensures value != NoDeck && !threw ==>
        cardQueue2 != null && fresh(cardQueue2) && cardQueue2.items == Expand(value.deck.value, order)
    {
      currentDeck2 := value;
      threw := false;
      if value != NoDeck {
        if value.deck.None? {
          threw := true;
        } else {
          cardQueue2 := CreateCardQueue(value.deck.value, order);
        }
      }
    }

    /** Player 1's queue iff player == 1, otherwise player 2's. */
    function GetCardQueue(player: int): (r: CardQueue?)
      reads this
      ensures player == 1 ==> r == cardQueue1
      ensures player != 1 ==> r == cardQueue2
    {
      if player == 1 then cardQueue1 else cardQueue2
    }

    /**
     * Copies the selected queue into a list, runs Fisher–Yates over it with the given
     * draws, and refills the queue from the list. A queue that was never built is null,
     * and copying it throws.
     */
    method ShuffleCardQueue(player: int, draws: seq<int>) returns (threw: bool)
      requires GetCardQueue(player) != null ==> ValidDraws(draws, |GetCardQueue(player).items|)
      modifies GetCardQueue(player)
      ensures threw <==> GetCardQueue(player) == null
      ensures !threw ==> var q := GetCardQueue(player);
        ValidDraws(draws, |old(q.items)|) && q.items == Shuffle(old(q.items), draws)
    {
      var q := if player == 1 then cardQueue1 else cardQueue2;
      if q == null {
        return true;
      }
      var items := q.items;
      var cardList := new CardInfo[|items|](k requires 0 <= k < |items| => items[k]);
      assert cardList[..] == items;
      ShuffleList(cardList, draws);
      q.Clear();
      var k := 0;
      while k < cardList.Length
        invariant 0 <= k <= cardList.Length
        invariant q.items == cardList[..k]
        invariant cardList[..] == Shuffle(items, draws)
      {
        q.Enqueue(cardList[k]);
        assert cardList[..k + 1] == cardList[..k] + [cardList[k]];
        k := k + 1;
      }
      assert cardList[..cardList.Length] == cardList[..];
      threw := false;
    }
  }

  /** The Fisher–Yates loop over the list, in place. */
  method ShuffleList(a: array<CardInfo>, draws: seq<int>)
    requires ValidDraws(draws, a.Length)
    modifies a
    ensures a[..] == Shuffle(old(a[..]), draws)
  {
    var i := a.Length - 1;
    while i > 0
      invariant -1 <= i < a.Length
      invariant a.Length == 0 || 0 <= i
      invariant ShuffleFrom(a[..], draws, i) == Shuffle(old(a[..]), draws)
      decreases i
    {
      var randomIndex := draws[i];
      ghost var before := a[..];
      var temp := a[i];
      a[i] := a[randomIndex];
      a[randomIndex] := temp;
      assert a[..] == Swap(before, i, randomIndex);
      assert ShuffleFrom(before, draws, i) == ShuffleFrom(a[..], draws, i - 1);
      i := i - 1;
    }
  }
}
