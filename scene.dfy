/**
 * The game objects that reference each other: board tiles, the cards standing on them,
 * the player's supply and the hand of cards.
 */
module Scene {
  import opened Geometry
  import opened CardData
  import opened UnitStats
  import opened TurnCycle
  import opened Decks

  /** A board tile. HasCard is meant to mirror whether a card stands on it. */
  class Tile {
    var gridPosition: Pos
    var isPlayer1: bool
    var activeCard: Card?
    var hasCard: bool
    /** Whether the tile's game object is shown (GameObject.SetActive). */
    var visible: bool
    /** Whether the tile is highlighted as a spell target (SetTileActive). */
    var tileActive: bool

    predicate Consistent()
      reads this
    {
      hasCard <==> activeCard != null
    }

    /** A freshly spawned tile, after Start has reset it. */
    constructor()
      ensures activeCard == null && !hasCard && visible && !tileActive
      ensures Consistent()
    {
      activeCard := null;
      hasCard := false;
      visible := true;
      tileActive := false;
    }

    method SetGridPosition(x: int, y: int)
      modifies this`gridPosition
      ensures gridPosition == Pos(x, y)
    {
      gridPosition := Pos(x, y);
    }

    method SetIsPlayer1(value: bool)
      modifies this`isPlayer1
      ensures isPlayer1 == value
    {
      isPlayer1 := value;
    }

    /** The tile holds the card afterwards; HasCard is set even for a null card. */
    method SetCard(card: Card?)
      modifies this`activeCard, this`hasCard
      ensures activeCard == card && hasCard
      ensures Consistent() <==> card != null
    {
      activeCard := card;
      hasCard := true;
    }

    method ResetTile()
      modifies this`activeCard, this`hasCard
      ensures activeCard == null && !hasCard
      ensures Consistent()
    {
      activeCard := null;
      hasCard := false;
    }

    method SetActive(value: bool)
      modifies this`visible
      ensures visible == value
    {
      visible := value;
    }

    method SetTileActive(value: bool)
      modifies this`tileActive
      ensures tileActive == value
    {
      tileActive := value;
    }
  }

  /** A unit card: in the hand, or standing on a tile. */
  class Card {
    var info: CardInfo
    const isPlayer1: bool
    var power: int
    var health: int
    var energy: int
    var cost: int
    var maxHealth: int
    var maxEnergy: int
    var isExhausted: bool
    var inHand: bool
    var isSelected: bool
    var isProvoked: bool
    var currentTile: Tile?
    var provokingCard: Card?

    function Vitals(): Vitals
      reads this
    {
      UnitStats.Vitals(health, maxHealth, energy, maxEnergy, isExhausted)
    }

    /** A card object just instantiated from the prefab, before Start runs. */
    constructor(info: CardInfo, isPlayer1: bool)
      ensures this.info == info && this.isPlayer1 == isPlayer1
      ensures inHand && !isSelected && !isProvoked && !isExhausted
      ensures currentTile == null && provokingCard == null
      ensures power == 0 && health == 0 && energy == 0 && cost == 0 && maxHealth == 0 && maxEnergy == 0
    {
      this.info := info;
      this.isPlayer1 := isPlayer1;
      inHand := true;
      isSelected, isProvoked, isExhausted := false, false, false;
      currentTile, provokingCard := null, null;
      power, health, energy, cost, maxHealth, maxEnergy := 0, 0, 0, 0, 0, 0;
    }

    method InitializeVariables()
      modifies this`power, this`health, this`energy, this`cost, this`maxHealth, this`maxEnergy
      ensures Vitals() == Initialized(old(Vitals()), info)
      ensures power == info.power && cost == info.cost
    {
      power := info.power;
      health := info.health;
      energy := info.energy;
      cost := info.cost;
      maxHealth := info.health;
      maxEnergy := info.energy;
    }

    /** The card leaves its tile; the Destroy that follows is not modelled. */
    method TriggerDeath()
      requires currentTile != null
      modifies currentTile`activeCard, currentTile`hasCard
      ensures currentTile.activeCard == null && !currentTile.hasCard
    {
      currentTile.ResetTile();
    }

    method TakeDamage(amount: int, isDeathTouch: bool)
      requires Dies(Vitals(), amount, isDeathTouch) ==> currentTile != null
      modifies this`health, currentTile
      ensures Vitals() == UnitStats.TakeDamage(old(Vitals()), amount)
      ensures Dies(old(Vitals()), amount, isDeathTouch)
        ==> (currentTile.activeCard == null && !currentTile.hasCard
             && currentTile.gridPosition == old(currentTile.gridPosition))
      ensures !Dies(old(Vitals()), amount, isDeathTouch) && currentTile != null ==> unchanged(currentTile)
    {
      health := health - amount;
      if health <= 0 || isDeathTouch {
        TriggerDeath();
      }
    }

    method Heal(amount: int)
      modifies this`health
      ensures Vitals() == UnitStats.Heal(old(Vitals()), amount)
    {
      health := health + amount;
      health := Clamp(health, 0, maxHealth);
    }

    method LowerEnergy(amount: int)
      modifies this`energy, this`isExhausted
      ensures Vitals() == UnitStats.LowerEnergy(old(Vitals()), amount)
    {
      energy := energy - amount;
      if energy <= 0 {
        SetExhausted(true);
      }
    }

    method SetExhausted(value: bool)
      modifies this`energy, this`isExhausted
      ensures Vitals() == UnitStats.SetExhausted(old(Vitals()), value)
    {
      isExhausted := value;
      if value {
        energy := 0;
      } else {
        energy := maxEnergy;
      }
    }

    method SetProvoked(value: bool, provoker: Card?)
      modifies this`isProvoked, this`provokingCard
      ensures isProvoked == value && provokingCard == provoker
    {
      isProvoked := value;
      provokingCard := provoker;
    }

    predicate IsOwnersTurn(currentTurn: GameState)
      reads this
    {
      (isPlayer1 && currentTurn == Player1Turn) || (!isPlayer1 && currentTurn == Player2Turn)
    }

    method RefreshCard(currentTurn: GameState)
      modifies this`energy, this`isExhausted
      ensures Vitals() == Refresh(old(Vitals()), IsOwnersTurn(currentTurn))
    {
      if !IsOwnersTurn(currentTurn) {
        return;
      }
      energy := maxEnergy;
      SetExhausted(false);
    }

    /** Moves the card: the previous tile is emptied, then the new tile holds this card. */
    method ChangeTile(target: Tile)
      modifies this`currentTile, {currentTile}`activeCard, {currentTile}`hasCard, target`activeCard, target`hasCard
      ensures currentTile == target && target.activeCard == this && target.hasCard && target.Consistent()
      ensures target.gridPosition == old(target.gridPosition) && target.isPlayer1 == old(target.isPlayer1)
      ensures target.visible == old(target.visible) && target.tileActive == old(target.tileActive)
      ensures old(currentTile) != null && old(currentTile) != target
        ==> (old(currentTile).activeCard == null && !old(currentTile).hasCard
             && old(currentTile).gridPosition == old(currentTile.gridPosition)
             && old(currentTile).isPlayer1 == old(currentTile.isPlayer1)
             && old(currentTile).visible == old(currentTile.visible)
             && old(currentTile).tileActive == old(currentTile.tileActive))
    {
      if currentTile != null {
        currentTile.ResetTile();
      }
      currentTile := target;
      currentTile.SetCard(this);
    }

    /** The card leaves the hand and its cost is paid from the supply. */
    method EnterPlay(hand: HandManager, supply: PlayerManager)
      modifies this`inHand, hand, supply
      ensures !inHand
      ensures hand.cardsInHand == RemoveFirst(old(hand.cardsInHand), this)
      ensures supply.currentSupply == old(supply.currentSupply) - cost
    {
      inHand := false;
      hand.RemoveCardFromHand(this);
      supply.LowerSupply(cost);
    }

    /**
     * Plays the card onto the tile under the cursor (null when the mouse is off the
     * board). The cost is paid whenever a tile was hit, even an occupied one; the card
     * moves only onto an empty tile.
     */
    method PlayToTile(target: Tile?, hand: HandManager, supply: PlayerManager) returns (played: bool)
      modifies this, hand, supply, target, currentTile
      ensures played <==> old(supply.currentSupply) >= cost && target != null
      ensures !played ==> unchanged(this, hand, supply) && (target != null ==> unchanged(target))
      ensures played ==> (!inHand && !isSelected
        && hand.cardsInHand == RemoveFirst(old(hand.cardsInHand), this)
        && supply.currentSupply == old(supply.currentSupply) - cost)
      ensures played && !old(target.hasCard) ==> currentTile == target && target.activeCard == this
      ensures played && old(target.hasCard) ==> currentTile == old(currentTile) && unchanged(target)
      ensures health == old(health) && energy == old(energy) && cost == old(cost)
    {
      played := false;
      var affordable := supply.CanPlayCard(cost);
      if !affordable {
        return;
      }
      if target != null {
        EnterPlay(hand, supply);
        if !target.hasCard {
          ChangeTile(target);
        }
        isSelected := false;
        played := true;
      }
    }
  }

  /** List<T>.Remove: the first occurrence goes, or nothing when the item is absent. */
  function RemoveFirst<T(==)>(s: seq<T>, x: T): (r: seq<T>)
    ensures x !in s ==> r == s
    ensures x in s ==> |r| == |s| - 1 && multiset(r) == multiset(s) - multiset{x}
  {
    if s == [] then []
    else if s[0] == x then assert s == [s[0]] + s[1..]; s[1..]
    else assert s == [s[0]] + s[1..]; [s[0]] + RemoveFirst(s[1..], x)
  }

  /** RemoveFirst cuts out exactly the first occurrence and keeps the order of the rest. */
  lemma {:induction false} RemoveFirstAt<T>(s: seq<T>, x: T, i: int)
    requires 0 <= i < |s| && s[i] == x && x !in s[..i]
    ensures RemoveFirst(s, x) == s[..i] + s[i + 1..]
  {
    if i > 0 {
      assert s[0] in s[..i];
      assert s[1..][..i - 1] == s[1..i];
      RemoveFirstAt(s[1..], x, i - 1);
      assert s[..i] == [s[0]] + s[1..i];
      assert s[i + 1..] == s[1..][i..];
    }
  }

  /** The supply of cards a player can pay for from. */
  class PlayerManager {
    const maxSupply: int
    var currentSupply: int

    constructor(maxSupply: int)
      ensures this.maxSupply == maxSupply && currentSupply == 0
    {
      this.maxSupply := maxSupply;
      currentSupply := 0;
    }

    method Init()
      modifies this`currentSupply
      ensures currentSupply == maxSupply
    {
      currentSupply := maxSupply;
    }

    /** A card is affordable iff the supply covers its cost; the supply is only read. */
    method CanPlayCard(cost: int) returns (r: bool)
      ensures r <==> currentSupply >= cost
    {
      r := currentSupply >= cost;
    }

    /** Pays the amount; the supply may go below zero. */
    method LowerSupply(amount: int)
      modifies this`currentSupply
      ensures currentSupply == old(currentSupply) - amount
    {
      currentSupply := currentSupply - amount;
    }
  }

  /** The cards in the player's hand, in the order they were added. */
  class HandManager {
    var cardsInHand: seq<Card>
    /** The side the card prefab is set up for; every drawn card gets it. */
    const prefabIsPlayer1: bool

    constructor(prefabIsPlayer1: bool)
      ensures cardsInHand == [] && this.prefabIsPlayer1 == prefabIsPlayer1
    {
      cardsInHand := [];
      this.prefabIsPlayer1 := prefabIsPlayer1;
    }

    method RemoveCardFromHand(card: Card)
      modifies this`cardsInHand
      ensures cardsInHand == RemoveFirst(old(cardsInHand), card)
    {
      if card in cardsInHand {
        cardsInHand := RemoveFirst(cardsInHand, card);
      }
    }

    /**
     * Draws up to `count` cards from the front of the queue, stopping when it runs
     * empty; each drawn card becomes a new card object at the end of the hand.
     */
    method DrawCards(count: int, queue: CardQueue)
      modifies this`cardsInHand, queue
      ensures var k := Drawn(count, |old(queue.items)|);
        queue.items == old(queue.items)[k..]
        && |cardsInHand| == |old(cardsInHand)| + k
        && cardsInHand[..|old(cardsInHand)|] == old(cardsInHand)
        && DrawnCards(cardsInHand[|old(cardsInHand)|..], old(queue.items)[..k])
      ensures forall j :: |old(cardsInHand)| <= j < |cardsInHand| ==> fresh(cardsInHand[j])
      ensures |cardsInHand| + |queue.items| == |old(cardsInHand)| + |old(queue.items)|
    {
      var i := 0;
      ghost var hand0 := cardsInHand;
      ghost var queue0 := queue.items;
      while i < count
        invariant 0 <= i <= Drawn(count, |queue0|)
        invariant queue.items == queue0[i..]
        invariant |cardsInHand| == |hand0| + i && cardsInHand[..|hand0|] == hand0
        invariant DrawnCards(cardsInHand[|hand0|..], queue0[..i])
        invariant forall j :: |hand0| <= j < |cardsInHand| ==> fresh(cardsInHand[j])
      {
        if queue.Count() > 0 {
          var drawn := queue.Dequeue();
          var cardObject := new Card(drawn, prefabIsPlayer1);
          ghost var before := cardsInHand;
          cardsInHand := cardsInHand + [cardObject];
          assert cardsInHand[|hand0|..] == before[|hand0|..] + [cardObject];
          assert queue0[..i + 1] == queue0[..i] + [drawn];
        } else {
          break;
        }
        i := i + 1;
      }
    }
  }

  /** Card objects made for drawn assets, in order: still in the hand and on no tile. */
  predicate DrawnCards(cards: seq<Card>, drawn: seq<CardInfo>)
    reads cards
  {
    |cards| == |drawn| && forall j :: 0 <= j < |cards| ==> NewInHand(cards[j], drawn[j])
  }

  /** A card object made for a drawn asset: still in the hand and on no tile. */
  predicate NewInHand(c: Card, drawn: CardInfo)
    reads c
  {
    c.info == drawn && c.inHand && c.currentTile == null
  }

  /** How many cards DrawCards takes: the request, but no more than the queue holds. */
  function Drawn(count: int, available: int): (k: int)
    requires available >= 0
    ensures 0 <= k <= available
    ensures 0 <= count <= available ==> k == count
    ensures count > available ==> k == available
    ensures count <= 0 ==> k == 0
  {
    if count <= 0 then 0 else if count < available then count else available
  }
}
