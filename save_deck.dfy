/**
 * Saving and loading custom decks. The files under the persistent data path are a map
 * from file path to the list of card tokens stored there; the binary formatter, the file
 * streams and the creation of the directory are not modelled.
 */
module SaveDecks {
  import opened Wrappers
  import opened CardData
  import opened Decks
  import opened Tokens

  /** The files of the persistent data path, as the serialised token lists they hold. */
  class DeckStore {
    const dataPath: string
    var files: map<string, seq<CardInfoToken>>

    constructor(dataPath: string, files: map<string, seq<CardInfoToken>>)
      ensures this.dataPath == dataPath && this.files == files
    {
      this.dataPath := dataPath;
      this.files := files;
    }
  }

  /** The directory every custom deck lives in. */
  function CustomDecksPath(dataPath: string): (r: string)
    ensures r == dataPath + "/CustomDecks"
  {
    dataPath + "/CustomDecks"
  }

  /**
   * Path.Combine(customDecksPath, fileName + ".deck") with '/' as the separator: a rooted
   * second part replaces the first, and otherwise the two are joined by the separator,
   * since the directory part never ends in one.
   */
  function DeckFilePath(dataPath: string, fileName: string): (r: string)
    ensures |fileName| > 0 && fileName[0] == '/' ==> r == fileName + ".deck"
    ensures !(|fileName| > 0 && fileName[0] == '/') ==>
      r == CustomDecksPath(dataPath) + "/" + fileName + ".deck"
  {
    var second := fileName + ".deck";
    if second[0] == '/' then second else CustomDecksPath(dataPath) + "/" + second
  }

  /** Every deck file path ends in ".deck". */
  lemma DeckFilePathExtension(dataPath: string, fileName: string)
    ensures |DeckFilePath(dataPath, fileName)| >= 5
    ensures DeckFilePath(dataPath, fileName)[|DeckFilePath(dataPath, fileName)| - 5..] == ".deck"
  {
  }

  /** Distinct deck names that are not rooted paths get distinct files. */
  lemma {:induction false} DeckFilePathInjective(dataPath: string, a: string, b: string)
    requires !(|a| > 0 && a[0] == '/') && !(|b| > 0 && b[0] == '/')
    requires DeckFilePath(dataPath, a) == DeckFilePath(dataPath, b)
    ensures a == b
  {
    var prefix := CustomDecksPath(dataPath) + "/";
    var pa := DeckFilePath(dataPath, a);
    assert pa == prefix + (a + ".deck");
    assert DeckFilePath(dataPath, b) == prefix + (b + ".deck");
    assert a + ".deck" == pa[|prefix|..];
    assert b + ".deck" == pa[|prefix|..];
    assert a == (a + ".deck")[..|a|];
    assert b == (b + ".deck")[..|b|];
  }

  /** One token per card, in order. */
  function TokensOf(cards: seq<CardInfo>): (r: seq<CardInfoToken>)
    ensures |r| == |cards| && forall i :: 0 <= i < |cards| ==> r[i] == TokenOf(cards[i])
  {
    seq(|cards|, i requires 0 <= i < |cards| => TokenOf(cards[i]))
  }

  /** One card per token, in order, as ToCardInfo builds them. */
  function CardsOf(tokens: seq<CardInfoToken>): (r: seq<CardInfo>)
    ensures |r| == |tokens| && forall i :: 0 <= i < |tokens| ==> r[i] == CardOf(tokens[i])
  {
    seq(|tokens|, i requires 0 <= i < |tokens| => CardOf(tokens[i]))
  }

  /**
   * SaveDeckToFile: expands the deck into one token per copy, entry by entry in the
   * dictionary's enumeration order, and stores the list under the deck's file path.
   */
  method SaveDeckToFile(store: DeckStore, deck: Deck, order: seq<string>, deckName: string)
    requires IsOrder(deck, order)
    modifies store
    ensures store.files == old(store.files)[DeckFilePath(store.dataPath, deckName) := TokensOf(Expand(deck, order))]
  {
    var files := store.files;
    var deckList: seq<CardInfoToken> := [];
    ghost var laid: seq<CardInfo> := [];
    var k := 0;
    while k < |order|
      invariant 0 <= k <= |order|
      invariant laid == Expand(deck, order[..k])
      invariant deckList == TokensOf(laid)
    {
      var entry := deck[order[k]];
      var i := 0;
      while i < entry.count
        invariant 0 <= i <= if entry.count < 0 then 0 else entry.count
        invariant laid == Expand(deck, order[..k]) + Repeat(entry.card, i)
        invariant deckList == TokensOf(laid)
      {
        var token := NewCardInfoToken(entry.card);
        deckList := deckList + [token];
        RepeatSnoc(entry.card, i);
        laid := laid + [entry.card];
        i := i + 1;
      }
      assert order[..k + 1] == order[..k] + [order[k]];
      ExpandConcat(deck, order[..k], [order[k]]);
      assert Expand(deck, [order[k]]) == Repeat(entry.card, entry.count) + [];
      k := k + 1;
    }
    assert order[..|order|] == order;
    store.files := files[DeckFilePath(store.dataPath, deckName) := deckList];
  }

  /** What LoadDeckFromFile returns for the files as they are. */
  function LoadResult(files: map<string, seq<CardInfoToken>>, dataPath: string, deckName: string): (r: Result<Deck, string>)
    ensures r.Failure? <==> DeckFilePath(dataPath, deckName) !in files
    ensures r.Failure? ==> r.error == "Deck file not found: " + DeckFilePath(dataPath, deckName)
    ensures r.Success? ==> r.value == Collapse(CardsOf(files[DeckFilePath(dataPath, deckName)]))
  {
    var path := DeckFilePath(dataPath, deckName);
    if path !in files then Failure("Deck file not found: " + path)
    else Success(Collapse(CardsOf(files[path])))
  }

  /**
   * LoadDeckFromFile: fails with a not-found error when no file is stored under the deck's
   * path; otherwise turns each token back into a card and counts it into a fresh
   * dictionary, adding 1 to a card already present and inserting a new card with 1.
   */
  method LoadDeckFromFile(store: DeckStore, deckName: string) returns (r: Result<Deck, string>)
    ensures r == LoadResult(store.files, store.dataPath, deckName)
  {
    var filePath := DeckFilePath(store.dataPath, deckName);
    if filePath !in store.files {
      return Failure("Deck file not found: " + filePath);
    }
    var deckList := store.files[filePath];
    var deck: Deck := map[];
    var k := 0;
    while k < |deckList|
      invariant 0 <= k <= |deckList|
      invariant deck == Collapse(CardsOf(deckList[..k]))
    {
      var cardInfo := ToCardInfo(deckList[k]);
      if cardInfo.name in deck {
        deck := deck[cardInfo.name := deck[cardInfo.name].(count := deck[cardInfo.name].count + 1)];
      } else {
        deck := deck[cardInfo.name := Entry(cardInfo, 1)];
      }
      assert CardsOf(deckList[..k + 1])[..k] == CardsOf(deckList[..k]);
      k := k + 1;
    }
    assert deckList[..|deckList|] == deckList;
    r := Success(deck);
  }

  /** The deck with every card's tribes dropped, as a token round trip leaves it. */
  function Untribed(d: Deck): (r: Deck)
    ensures r.Keys == d.Keys
    ensures forall n :: n in d ==> r[n] == Entry(d[n].card.(tribes := []), d[n].count)
  {
    map n | n in d :: Entry(d[n].card.(tribes := []), d[n].count)
  }

  lemma {:induction false} ExpandUntribed(d: Deck, order: seq<string>)
    requires forall i :: 0 <= i < |order| ==> order[i] in d
    ensures CardsOf(TokensOf(Expand(d, order))) == Expand(Untribed(d), order)
  {
    if order != [] {
      ExpandUntribed(d, order[1..]);
      var n := order[0];
      var head := Repeat(d[n].card, d[n].count);
      var tail := Expand(d, order[1..]);
      CardRoundTrip(d[n].card);
      assert Expand(d, order) == head + tail;
      assert Expand(Untribed(d), order) == Repeat(d[n].card.(tribes := []), d[n].count) + Expand(Untribed(d), order[1..]);
      forall i | 0 <= i < |head + tail|
        ensures CardsOf(TokensOf(head + tail))[i] == (CardsOf(TokensOf(head)) + CardsOf(TokensOf(tail)))[i]
      {
        if i < |head| {
          assert (head + tail)[i] == head[i];
        } else {
          assert (head + tail)[i] == tail[i - |head|];
        }
      }
      assert CardsOf(TokensOf(head + tail)) == CardsOf(TokensOf(head)) + CardsOf(TokensOf(tail));
      forall i | 0 <= i < |head| ensures CardsOf(TokensOf(head))[i] == d[n].card.(tribes := []) {
      }
      assert CardsOf(TokensOf(head)) == Repeat(d[n].card.(tribes := []), d[n].count);
    }
  }

  /**
   * Round trip through a file: loading the name a deck with positive counts was just saved
   * under gives the deck back, every card intact except for its tribes.
   */
  lemma SaveThenLoad(files: map<string, seq<CardInfoToken>>, dataPath: string, deck: Deck, order: seq<string>, deckName: string)
    requires WellKeyed(deck) && PositiveCounts(deck) && IsOrder(deck, order)
    ensures LoadResult(files[DeckFilePath(dataPath, deckName) := TokensOf(Expand(deck, order))], dataPath, deckName)
      == Success(Untribed(deck))
  {
    ExpandUntribed(deck, order);
    CollapseExpand(Untribed(deck), order);
  }
}
