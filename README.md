# Card Game Prototype: a verified model of its rules

This project models the rules of a two-player tactics card game played on a board of
6 columns by 5 rows. Columns 0 to 2 are player 1's half and columns 3 to 5 are player 2's.
Column 2 is player 1's frontline and column 3 is player 2's.

Units are played from a hand, paid for from a supply, and stand on tiles. Each unit has
health, energy, exhaustion and a provoke state. A unit's actions reach tiles according to
a range (Melee, Reach, Ranged or Global) and three target flags (enemies, allies, self).
Keywords shape their effects: Heal, Damage, Cleave, Burst, Nova, Drain, Provoke, DeathTouch,
Overkill, Momentum and DrawCard. Spells hit a rectangle of tiles around the cursor.

A turn runs through five phases. In the Advance phase a scale moves towards the player
whose turn it is, when the opponent's frontline is empty, and the scale opens and closes
outer columns. Decks are dictionaries from card to copy count, keyed by card Name. The
deck builder adds and removes cards under a per-card cap (3) and a deck cap (30). Decks
are saved as lists of tokens and loaded back by counting. A game deck is expanded into a
draw queue, which is shuffled with Fisher–Yates.

The model follows the program's structure, one Dafny module per source unit:

- Value modules: `CardData`, `UnitStats`, `Battle`, `Tokens` and `Decks`.
- Modules whose source works on the board: `Geometry`, `ActionRanges`, `LegacyRanges`,
  `ActionSystem`, `LegacyAction`, `OriginalAction` and `SpellSystem`. Their loops are
  methods proved against specification functions, and lemmas give those functions'
  meaning.
- Classes, for the objects whose fields the source updates:
  - `Scene.Tile`, `Scene.Card`, `Scene.PlayerManager` and `Scene.HandManager`;
  - `GridManagement.GridManager` and `TurnManagement.TurnManager`;
  - `Decks.CardQueue` and `GameManagement.GameManager`;
  - `CardCollection.CardCollectionManager`, `SaveDecks.DeckStore` and `Tokens.ActionAsset`.

The action system exists in three revisions of the source, and each is its own module:

- `ActionSystem` and `ActionRanges` model `Assets/Scripts/CardSystem/ActionSystem`.
- `LegacyAction` and `LegacyRanges` model `Assets/Scripts/ActionSystem`.
- `OriginalAction` models `Assets/Scripts/Action.cs`.

Several things the runtime decides are parameters of the model:

- The order in which a dictionary is enumerated.
- The indices drawn from `System.Random`.
- The line terminator, and the string hash of the runtime.
- The tiles `GridManager.GetTilesInRange` returns in the oldest revision.

Three behaviours of the code shape the effect rules:

- Overkill always splashes onto column x + 1 of the target's row, whichever side attacks,
  and the source does not check that this tile is on the board or occupied
  (`ActionSystem.cs:124-127`). `ActionSystem.Resolve` is `None` where that read throws.
- A splash needs the target's health to be strictly below the power (`ActionSystem.cs:119`).
  Equal health marks the kill but splashes nothing.
- The win branches of `IncrementScale` at scale 5 and -5 are empty (`TurnManager.cs:95-102`).

A runtime exception of the source is modelled in one of three ways: an outcome flagged
`threw`, an `Option`/`Result` value, or a precondition when the source's callers never
reach it. A null reference is `None`.

## Model

| member | source | states |
|---|---|---|
| UnitStats.Clamp | Assets/Scripts/Card.cs:266 | Mathf.Clamp: for ordered bounds the result is in [min, max], equals the value when it is in range, and is min below it |
| UnitStats.Heal | Assets/Scripts/Card.cs:263-268 | healed health lies in [0, maxHealth]; it is health + amount when that is in range; nothing but health changes |
| UnitStats.SetExhausted | Assets/Scripts/Card.cs:283-300 | exhausting zeroes the energy; un-exhausting restores maxEnergy; health and maxima are kept |
| UnitStats.LowerEnergy | Assets/Scripts/Card.cs:270-281 | energy drops by the amount and reaching 0 or below exhausts the unit with energy 0; energy is never negative; health and maxima are kept |
| UnitStats.Refresh | Assets/Scripts/Card.cs:308-315 | on the owner's turn the unit is un-exhausted at full energy; on the other turn nothing changes |
| UnitStats.Initialized | Assets/Scripts/Card.cs:319-327 | health = maxHealth = the asset's Health and energy = maxEnergy = its Energy |
| UnitStats.ExhaustionPreserved | Assets/Scripts/Card.cs:248-300 | every stat operation keeps "exhausted implies energy 0" |
| UnitStats.LethalThreshold | Assets/Scripts/Card.cs:248-256 | a hit kills iff the remaining health is at most the amount or it has DeathTouch |
| UnitStats.HealAdds | Assets/Scripts/Card.cs:263-268 | two heals by non-negative amounts equal one heal by their sum |
| Battle.TakeDamageEffect | Assets/Scripts/Card.cs:239-261 | a hit lowers only the target's health, by exactly the amount, and empties its tile exactly when the hit is lethal |
| Battle.HealProvokeEffect | Assets/Scripts/Card.cs:263-306 | Heal and SetProvoked change only their target, and never a tile |
| Battle.ValidPreserved | Assets/Scripts/Card.cs:239-306 | every stat change keeps the board consistent (each occupant knows its tile, each provoked unit its provoker) |
| CardData.Wrap32 | Assets/Scripts/ScriptableObjects/CardInfo.cs:95-100 | the unchecked int expression wraps into the 32-bit range and agrees with the exact value modulo 2^32 |
| CardData.EqualsReflexive | Assets/Scripts/ScriptableObjects/CardInfo.cs:81-91 | every card asset equals itself |
| CardData.EqualsSymmetric | Assets/Scripts/ScriptableObjects/CardInfo.cs:81-91 | Equals is symmetric between card assets |
| CardData.EqualsTransitive | Assets/Scripts/ScriptableObjects/CardInfo.cs:81-91 | Equals is transitive |
| CardData.EqualsRejectsOthers | Assets/Scripts/ScriptableObjects/CardInfo.cs:83-86 | null and objects of unrelated types never equal a card |
| CardData.EqualCardsHashEqually | Assets/Scripts/ScriptableObjects/CardInfo.cs:81-101 | equal cards (same type, same Name) hash equally, for any string hash |
| Scene.Tile.constructor | Assets/Scripts/Tile.cs:12-20 | a spawned tile is empty, with HasCard false |
| Scene.Tile.SetGridPosition | Assets/Scripts/Tile.cs:40-43 | GridPosition becomes exactly (x, y); occupancy is untouched |
| Scene.Tile.SetIsPlayer1 | Assets/Scripts/Managers/GridManager.cs:28 | only the side flag changes |
| Scene.Tile.SetCard | Assets/Scripts/Tile.cs:45-49 | the tile holds the card and HasCard is true; nothing else changes |
| Scene.Tile.ResetTile | Assets/Scripts/Tile.cs:51-55 | the tile holds no card and HasCard is false; nothing else changes |
| Scene.Tile.SetActive | Assets/Scripts/Managers/GridManager.cs:67 | only the shown flag changes |
| Scene.Tile.SetTileActive | Assets/Scripts/CardSystem/SpellSystem/SpellSystem.cs:86 | only the spell-target highlight flag changes |
| Scene.Card.constructor | Assets/Scripts/Card.cs:32-44 | a new card holds its asset and side, is in the hand and on no tile |
| Scene.Card.InitializeVariables | Assets/Scripts/Card.cs:319-332 | the card's stats become Initialized of its asset |
| Scene.Card.TriggerDeath | Assets/Scripts/Card.cs:239-246 | the card's tile is emptied, and the card keeps its own tile reference |
| Scene.Card.TakeDamage | Assets/Scripts/Card.cs:248-261 | health drops by exactly the amount; the tile is emptied iff the new health is at most 0 or the hit has DeathTouch |
| Scene.Card.Heal | Assets/Scripts/Card.cs:263-268 | the stats become UnitStats.Heal of the old ones |
| Scene.Card.LowerEnergy | Assets/Scripts/Card.cs:270-281 | the stats become UnitStats.LowerEnergy of the old ones |
| Scene.Card.SetExhausted | Assets/Scripts/Card.cs:283-300 | the stats become UnitStats.SetExhausted of the old ones |
| Scene.Card.SetProvoked | Assets/Scripts/Card.cs:302-306 | the provoked flag and the provoker are set as given; nothing else changes |
| Scene.Card.RefreshCard | Assets/Scripts/Card.cs:308-315 | on the owner's turn the card is un-exhausted at full energy; otherwise nothing changes |
| Scene.Card.ChangeTile | Assets/Scripts/Card.cs:222-232 | the previous tile is emptied, the new tile holds this card, and the card points at the new tile |
| Scene.Card.EnterPlay | Assets/Scripts/Card.cs:334-350 | the card leaves the hand (its first occurrence) and the supply drops by its cost |
| Scene.Card.PlayToTile | Assets/Scripts/Card.cs:118-137 | with a tile hit and enough supply the cost is paid even onto an occupied tile; the card moves only onto an empty tile; otherwise nothing changes |
| Scene.RemoveFirst | Assets/Scripts/Managers/HandManager.cs:50-60 | List.Remove: without the item the list is unchanged; with it, one element fewer |
| Scene.RemoveFirstAt | Assets/Scripts/Managers/HandManager.cs:50-60 | removal cuts out exactly the first occurrence and keeps the rest in order |
| Scene.PlayerManager.constructor | Assets/Scripts/Managers/PlayerManager.cs:8-10 | the maximum supply is stored |
| Scene.PlayerManager.Init | Assets/Scripts/Managers/PlayerManager.cs:13-21 | the current supply becomes the maximum |
| Scene.PlayerManager.CanPlayCard | Assets/Scripts/Managers/PlayerManager.cs:28-31 | true iff the supply covers the cost; the supply is not changed |
| Scene.PlayerManager.LowerSupply | Assets/Scripts/Managers/PlayerManager.cs:33-36 | the supply drops by exactly the amount, with no floor |
| Scene.HandManager.constructor | Assets/Scripts/Managers/HandManager.cs:7 | the hand starts empty |
| Scene.HandManager.RemoveCardFromHand | Assets/Scripts/Managers/HandManager.cs:50-60 | the hand becomes RemoveFirst of itself: the card goes if present, else the hand is unchanged |
| Scene.HandManager.DrawCards | Assets/Scripts/Managers/HandManager.cs:66-86 | min(count, queue length) cards leave the front of the queue in order and arrive as new cards at the end of the hand; hand plus queue length is unchanged |
| Scene.Drawn | Assets/Scripts/Managers/HandManager.cs:70-82 | the number drawn is the request capped by what the queue holds, and never negative |
| GridManagement.GridManager.Init | Assets/Scripts/Managers/GridManager.cs:9-19 | Init builds a 6 by 5 grid of fresh, empty, distinct tiles; tile (x, y) has position (x, y) and belongs to player 1 iff x < 3 |
| GridManagement.GridManager.SpawnTile | Assets/Scripts/Managers/GridManager.cs:21-31 | cell (x, y) gets a fresh tile with position (x, y) and that side; the other cells are untouched |
| GridManagement.GridManager.TilesDistinct | Assets/Scripts/Managers/GridManager.cs:30 | two different cells never hold the same tile object |
| GridManagement.GridManager.CanAdvance | Assets/Scripts/Managers/GridManager.cs:33-38 | true iff the opponent's frontline (column 3 on player 1's turn, 2 on player 2's) holds no unit |
| GridManagement.GridManager.CheckColumn | Assets/Scripts/Managers/GridManager.cs:40-49 | true iff some tile of column x holds a unit |
| GridManagement.GridManager.CheckRow | Assets/Scripts/Managers/GridManager.cs:51-60 | true iff some tile of row y holds a unit |
| GridManagement.GridManager.ColumnSetActive | Assets/Scripts/Managers/GridManager.cs:62-69 | the tiles of column x show the value; no other tile and no other field changes |
| GridManagement.GridManager.VisibilityFromTiles | Assets/Scripts/Managers/GridManager.cs:62-69 | after the update the board's visibility map is the old one with only column x set |
| GridManagement.ShowColumn | Assets/Scripts/Managers/GridManager.cs:62-69 | the map with column x set keeps every other tile's entry |
| GridManagement.GridManager.GetBoardHalf | Assets/Scripts/Managers/GridManager.cs:71-84 | as written: the tiles passing the x < 0 or x > 0 test, in x-then-y order |
| GridManagement.GridManager.ScanColumn | Assets/Scripts/Managers/GridManager.cs:75-81 | one column of that scan: the passing tiles of column x, bottom to top |
| GridManagement.BoardHalfAsWrittenEmptyForPlayer1 | Assets/Scripts/Managers/GridManager.cs:71-84 | as written, player 1's half is empty |
| GridManagement.BoardHalfAsWrittenForPlayer2 | Assets/Scripts/Managers/GridManager.cs:71-84 | as written, player 2's half is the 25 tiles with x > 0 |
| GridManagement.BoardHalf | Assets/Scripts/Managers/GridManager.cs:28-84 | the intended half: the 15 tiles of the player's own three columns, in x-then-y order |
| GridSystem.CardsInColumn | Assets/Scripts/GridSystem.cs:31-44 | the occupants of column x from row 4 down to row 0, skipping empty tiles |
| GridSystem.ActiveCards | Assets/Scripts/GridSystem.cs:13-23 | the occupants of columns start to end - 1 in ascending order; empty when start >= end |
| GridSystem.ActiveCardsMeaning | Assets/Scripts/GridSystem.cs:13-41 | one card per occupied tile of the range, and exactly the cards standing there |
| GridSystem.CardsInColumnMeaning | Assets/Scripts/GridSystem.cs:31-44 | one card per occupied tile of the column, and exactly the cards standing there |
| GridSystem.OccupantsMembers | Assets/Scripts/GridSystem.cs:37-40 | every card returned stands on a scanned tile, and every occupant of one is returned |
| GridSystem.OccupantsCount | Assets/Scripts/GridSystem.cs:37-40 | over distinct tiles, the length is the number of occupied tiles |
| GridSystem.OccupantsDownColumn | Assets/Scripts/GridSystem.cs:31-44 | one column's scan from row y down is the occupants of exactly those tiles, all on the board |
| GridSystem.OccupantsFromColumns | Assets/Scripts/GridSystem.cs:13-44 | the column-by-column scan is the occupants of exactly the tiles of those columns |
| TurnCycle.NextPhase | Assets/Scripts/Managers/TurnManager.cs:33-44 | TurnEnd goes to the other player's TurnStart; every other phase goes to the next phase of the same player |
| TurnCycle.PhasesInOrder | Assets/Scripts/Managers/TurnManager.cs:7-42 | within a turn, n steps from TurnStart reach phase n in declaration order |
| TurnCycle.FiveStepsSwitchPlayer | Assets/Scripts/Managers/TurnManager.cs:35-43 | five steps from a player's TurnStart reach the other player's TurnStart |
| TurnCycle.TenStepsReturn | Assets/Scripts/Managers/TurnManager.cs:33-44 | the cycle has period ten |
| TurnManagement.ScaleVisibilityMeaning | Assets/Scripts/Managers/TurnManager.cs:108-114 | column 5 is shown iff the scale is 2 or -2, column 4 iff 3 or -4, column 1 iff -3, column 0 iff -2; other tiles keep their visibility |
| TurnManagement.FrontlinesNeverToggled | Assets/Scripts/Managers/TurnManager.cs:108-114 | columns 2 and 3 are never opened or closed |
| TurnManagement.ScaleMovesOnlyOnAdvance | Assets/Scripts/Managers/TurnManager.cs:62-91 | the scale moves only on entering Advance, by +1 for player 1 or -1 for player 2, and only when advancing is allowed |
| TurnManagement.FullTurn | Assets/Scripts/Managers/TurnManager.cs:33-91 | five steps from TurnStart reach the other player's TurnStart, with the scale moved one step towards the player who had the turn iff that player could advance |
| TurnManagement.TurnManager.constructor | Assets/Scripts/Managers/TurnManager.cs:18-20 | scale 0 at player 1's TurnStart |
| TurnManagement.TurnManager.NextPhase | Assets/Scripts/Managers/TurnManager.cs:33-46 | the turn state becomes the next step of the cycle, with the Advance effect applied; the columns follow the new scale |
| TurnManagement.TurnManager.ExecuteCurrentTurnState | Assets/Scripts/Managers/TurnManager.cs:48-80 | only in Advance, and only when CanAdvance holds, the scale moves and the columns are updated |
| TurnManagement.TurnManager.IncrementScale | Assets/Scripts/Managers/TurnManager.cs:87-103 | the scale moves by +1 or -1 by whose turn is given, the columns follow it, and the turn state is unchanged |
| TurnManagement.TurnManager.UpdateColumnsVisibility | Assets/Scripts/Managers/TurnManager.cs:108-114 | the board's visibility becomes ScaleVisibility of the old one |
| ActionRanges.GetValidTiles | Assets/Scripts/CardSystem/ActionSystem/ActionRanges.cs:24-99 | the result is RangeTiles: the kept window tiles on the unit's row, then those of the other rows |
| ActionRanges.ScanColumnCells | Assets/Scripts/CardSystem/ActionSystem/ActionRanges.cs:44-92 | one column of the window adds its kept tiles to the same-row and other-row groups |
| ActionRanges.Melee | Assets/Scripts/CardSystem/ActionSystem/ActionRanges.cs:114-117 | GetValidTiles with the Melee range |
| ActionRanges.Reach | Assets/Scripts/CardSystem/ActionSystem/ActionRanges.cs:119-122 | GetValidTiles with the Reach range |
| ActionRanges.Ranged | Assets/Scripts/CardSystem/ActionSystem/ActionRanges.cs:124-127 | GetValidTiles with the Ranged range |
| ActionRanges.WindowMembers | Assets/Scripts/CardSystem/ActionSystem/ActionRanges.cs:33-48 | the window is columns x-1 to x+2 for player 1 and x-2 to x+1 for player 2, clamped to the board, over the on-board rows y-1 to y+1 |
| ActionRanges.RangedTestRedundant | Assets/Scripts/CardSystem/ActionSystem/ActionRanges.cs:79-112 | inside a non-global window the Ranged distance test always holds |
| ActionRanges.RangeTilesMembers | Assets/Scripts/CardSystem/ActionSystem/ActionRanges.cs:33-64 | a tile is offered iff it is on the board, in the window and eligible (own tile iff self; else enemy tile iff enemies; else ally tile iff allies) |
| ActionRanges.RangedEqualsMeleeAndReach | Assets/Scripts/CardSystem/ActionSystem/ActionRanges.cs:38-112 | Melee, Reach and Ranged return the same list |
| ActionRanges.GroupRows | Assets/Scripts/CardSystem/ActionSystem/ActionRanges.cs:68-96 | the first group lies on the unit's row and the second off it |
| ActionRanges.RangeTilesOrder | Assets/Scripts/CardSystem/ActionSystem/ActionRanges.cs:68-96 | same-row tiles come first, then the others, each group in column-then-row order |
| ActionRanges.RangeTilesDistinct | Assets/Scripts/CardSystem/ActionSystem/ActionRanges.cs:42-50 | no tile is offered twice |
| ActionRanges.GetTilesInRange | Assets/Scripts/CardSystem/ActionSystem/ActionRanges.cs:134-164 | the result is TilesInRange: rows y, y+1, y-1, each from the frontline outward over the player's half |
| ActionRanges.ScanHalfRow | Assets/Scripts/CardSystem/ActionSystem/ActionRanges.cs:144-159 | one row of that scan, from the frontline outward |
| ActionRanges.Global | Assets/Scripts/CardSystem/ActionSystem/ActionRanges.cs:129-132 | GetTilesInRange with the largest 32-bit bound |
| ActionRanges.TilesInRangeMembers | Assets/Scripts/CardSystem/ActionSystem/ActionRanges.cs:134-186 | a tile is offered iff it is eligible, within the bound, on the player's own half and at most one row away |
| ActionRanges.GlobalMembers | Assets/Scripts/CardSystem/ActionSystem/ActionRanges.cs:129-164 | Global offers exactly the eligible own-half tiles of the three nearest rows: never an enemy tile |
| ActionRanges.TilesInRangeOrder | Assets/Scripts/CardSystem/ActionSystem/ActionRanges.cs:138-161 | tiles appear strictly in row priority then frontline distance order, so none twice |
| ActionSystem.ValidTiles | Assets/Scripts/CardSystem/ActionSystem/ActionSystem.cs:282-309 | the range's tiles, replaced by the provoker's tile alone when the unit is provoked and that tile is in range |
| ActionSystem.ValidTilesMeaning | Assets/Scripts/CardSystem/ActionSystem/ActionSystem.cs:302-308 | provoked with the provoker in range gives exactly [provoker tile]; otherwise the range result unchanged; always a subset of the range |
| ActionSystem.FindTargetTile | Assets/Scripts/CardSystem/ActionSystem/ActionSystem.cs:162-169 | the first valid tile holding a card, or none |
| ActionSystem.FirstOccupiedMeaning | Assets/Scripts/CardSystem/ActionSystem/ActionSystem.cs:162-174 | the tile found is occupied and no earlier tile is; none is found iff no tile is occupied |
| ActionSystem.AddNovaTiles | Assets/Scripts/CardSystem/ActionSystem/ActionSystem.cs:263-273 | appends the occupants of the valid tiles, in tile order |
| ActionSystem.OccupantsMembers | Assets/Scripts/CardSystem/ActionSystem/ActionSystem.cs:263-273 | a unit is among the occupants iff it stands on one of the tiles |
| ActionSystem.AddCleaveTiles | Assets/Scripts/CardSystem/ActionSystem/ActionSystem.cs:204-226 | appends the cards in the target's column on the acting unit's rows -1 and +1 that lie on the board |
| ActionSystem.CleaveMembers | Assets/Scripts/CardSystem/ActionSystem/ActionSystem.cs:206-224 | Cleave adds exactly the units on those two tiles |
| ActionSystem.AddBurstTiles | Assets/Scripts/CardSystem/ActionSystem/ActionSystem.cs:234-256 | appends the cards along the target's row beyond it, in the acting player's direction, to the board's edge |
| ActionSystem.BurstMembers | Assets/Scripts/CardSystem/ActionSystem/ActionSystem.cs:236-255 | Burst adds exactly the units on the target's row beyond the target in that direction |
| ActionSystem.TargetCards | Assets/Scripts/CardSystem/ActionSystem/ActionSystem.cs:156-196 | the result is TargetCardsOf: nothing without an occupied valid tile, all occupants with Nova, else the first occupant, then Cleave's and Burst's cards |
| ActionSystem.TargetsIn | Assets/Scripts/CardSystem/ActionSystem/ActionSystem.cs:171-195 | the part after ValidTiles, against the same definition |
| ActionSystem.Spread | Assets/Scripts/CardSystem/ActionSystem/ActionSystem.cs:180-193 | the non-Nova branch: the target's card, then Cleave's, then Burst's |
| ActionSystem.TargetCardsStart | Assets/Scripts/CardSystem/ActionSystem/ActionSystem.cs:162-182 | empty iff no valid tile is occupied; otherwise the first card stands on the first occupied valid tile |
| ActionSystem.NovaTargets | Assets/Scripts/CardSystem/ActionSystem/ActionSystem.cs:263-273 | with Nova the targets are exactly the units on the valid tiles |
| ActionSystem.TargetCardsOnBoard | Assets/Scripts/CardSystem/ActionSystem/ActionSystem.cs:156-196 | every target is a unit standing on the board |
| ActionSystem.ProvokedTargets | Assets/Scripts/CardSystem/ActionSystem/ActionSystem.cs:302-308 | a provoked unit with its provoker in range, without Cleave or Burst, hits only the provoker |
| ActionSystem.Strike | Assets/Scripts/CardSystem/ActionSystem/ActionSystem.cs:113-127 | UnitCard.TakeDamage: only the target's health, by exactly the amount, and its tile on death, change |
| ActionSystem.Mend | Assets/Scripts/CardSystem/ActionSystem/ActionSystem.cs:97-133 | UnitCard.Heal: only the target's health changes, to the clamped sum |
| ActionSystem.PerformHeal | Assets/Scripts/CardSystem/ActionSystem/ActionSystem.cs:95-98 | the target heals by the acting unit's power |
| ActionSystem.Splash | Assets/Scripts/CardSystem/ActionSystem/ActionSystem.cs:119-128 | the card on the splash tile takes the excess damage |
| ActionSystem.PerformDamage | Assets/Scripts/CardSystem/ActionSystem/ActionSystem.cs:108-137 | the target takes the power with the DeathTouch flag; Overkill with health below the power splashes the excess onto column x+1; then Drain heals the actor by the power |
| ActionSystem.PerformProvoke | Assets/Scripts/CardSystem/ActionSystem/ActionSystem.cs:144-147 | the target is provoked by the acting unit |
| ActionSystem.Healed | Assets/Scripts/CardSystem/ActionSystem/ActionSystem.cs:27-30 | the state Damage starts from: after the Heal, when the action heals |
| ActionSystem.ApplyOne | Assets/Scripts/CardSystem/ActionSystem/ActionSystem.cs:25-41 | one target: Heal, then Damage, then Provoke, each when the action has it |
| ActionSystem.PerformOn | Assets/Scripts/CardSystem/ActionSystem/ActionSystem.cs:25-41 | the loop body equals ApplyOne |
| ActionSystem.Resolve | Assets/Scripts/CardSystem/ActionSystem/ActionSystem.cs:19-42 | the targets are processed one at a time, in list order; none when a splash would hit an empty tile |
| ActionSystem.PerformAction | Assets/Scripts/CardSystem/ActionSystem/ActionSystem.cs:19-42 | the loop's result is Resolve of the whole list: the passes in list order, or none when a pass throws at the Overkill splash |
| ActionSystem.ResolveStops | Assets/Scripts/CardSystem/ActionSystem/ActionSystem.cs:25-41 | once a prefix of the list fails to resolve, the whole list fails |
| ActionSystem.ResolveStep | Assets/Scripts/CardSystem/ActionSystem/ActionSystem.cs:25-41 | each further target is one more pass over the state reached so far |
| ActionSystem.ResolvePrefix | Assets/Scripts/CardSystem/ActionSystem/ActionSystem.cs:25-41 | when the whole list resolves, so does every prefix |
| ActionSystem.SplashMissesTarget | Assets/Scripts/CardSystem/ActionSystem/ActionSystem.cs:124 | the splash tile is never the target's own tile |
| ActionSystem.DamageEffectOnTarget | Assets/Scripts/CardSystem/ActionSystem/ActionSystem.cs:110-113 | the target loses exactly the actor's power and keeps its provoke state |
| ActionSystem.TargetEffect | Assets/Scripts/CardSystem/ActionSystem/ActionSystem.cs:27-40 | a target other than the actor heals by the power, then loses the power, then is provoked by the actor, each by its keyword |
| ActionSystem.OverkillEffect | Assets/Scripts/CardSystem/ActionSystem/ActionSystem.cs:115-128 | health strictly below the power passes the rest onto the next column's card; equal health passes nothing |
| ActionSystem.DrainEffect | Assets/Scripts/CardSystem/ActionSystem/ActionSystem.cs:131-134 | after the damage the actor heals by the power; without Drain it is untouched, unless it was hit itself |
| ActionSystem.ResolveFrame | Assets/Scripts/CardSystem/ActionSystem/ActionSystem.cs:25-41 | without Overkill, a unit that is neither the actor nor a target is untouched |
| ActionSystem.ApplyOneFrame | Assets/Scripts/CardSystem/ActionSystem/ActionSystem.cs:25-41 | without Overkill, one pass touches only the actor and the target |
| LegacyRanges.EligibleInColumn | Assets/Scripts/ActionSystem/ActionRanges.cs:40-59 | the inner loop adds the eligible tiles of the column's on-board rows, bottom to top |
| LegacyRanges.EligibleInBlock | Assets/Scripts/ActionSystem/ActionRanges.cs:32-60 | the outer loop adds the eligible tiles of the block, column by column |
| LegacyRanges.Melee | Assets/Scripts/ActionSystem/ActionRanges.cs:22-63 | the eligible tiles of the 3 by 3 neighbourhood clamped to the board, in column-major order |
| LegacyRanges.Reach | Assets/Scripts/ActionSystem/ActionRanges.cs:72-113 | the same tiles as Melee |
| LegacyRanges.NeighbourTilesMembers | Assets/Scripts/ActionSystem/ActionRanges.cs:32-108 | a tile is offered iff it is on the board, at most one column and row away, and eligible |
| LegacyRanges.NeighbourTilesOrder | Assets/Scripts/ActionSystem/ActionRanges.cs:32-108 | column-major order, with no tile twice |
| LegacyRanges.Global | Assets/Scripts/ActionSystem/ActionRanges.cs:184-219 | every eligible board tile, in x-then-y order |
| LegacyRanges.GlobalTilesMembers | Assets/Scripts/ActionSystem/ActionRanges.cs:194-216 | a tile is offered iff it is on the board and eligible |
| LegacyRanges.GlobalTilesOrder | Assets/Scripts/ActionSystem/ActionRanges.cs:194-216 | x-then-y order, with no tile twice |
| LegacyRanges.Ranged | Assets/Scripts/ActionSystem/ActionRanges.cs:122-175 | on its own frontline (column 2 or 3) the Reach tiles; otherwise the scan of columns 0 to 3 (player 1) or 5 to 2 (player 2) over all rows |
| LegacyRanges.RangedScanColumn | Assets/Scripts/ActionSystem/ActionRanges.cs:144-171 | one scanned column: each tile's contribution in row order |
| LegacyRanges.RangedColumnMembers | Assets/Scripts/ActionSystem/ActionRanges.cs:136-170 | what one column contributes, tile by tile |
| LegacyRanges.RangedTilesMembers | Assets/Scripts/ActionSystem/ActionRanges.cs:125-170 | off the frontline, the eligible tiles up to the enemy frontline, plus the tile behind each empty enemy-frontline tile taken |
| LegacyRanges.RangedNeighbourOrder | Assets/Scripts/ActionSystem/ActionRanges.cs:155-164 | each added tile behind the frontline comes just before the frontline tile it stands behind |
| LegacyAction.TargetSpaces | Assets/Scripts/ActionSystem/Action.cs:65-86 | the target spaces built tile by tile with the source's bounds tests equal TargetSpacesAsWritten: none when Burst reaches a negative column |
| LegacyAction.TargetSpacesMembers | Assets/Scripts/ActionSystem/Action.cs:65-86 | the targets are on the board and are exactly the hit tile, its vertical neighbours with Cleave, and the next two tiles forward with Burst |
| LegacyAction.TargetSpacesDistinct | Assets/Scripts/ActionSystem/Action.cs:65-86 | no tile is a target space twice |
| LegacyAction.CleaveSkipsRowZero | Assets/Scripts/ActionSystem/Action.cs:71-74 | as written, row 0 is never a Cleave space |
| LegacyAction.BurstLeavesBoard | Assets/Scripts/ActionSystem/Action.cs:80-85 | as written, a player 2 Burst hit on column 0 or 1 indexes a negative column |
| LegacyAction.AsWrittenAgreement | Assets/Scripts/ActionSystem/Action.cs:65-86 | the written and corrected spaces agree iff neither defect case applies |
| LegacyAction.DamagePass | Assets/Scripts/ActionSystem/Action.cs:117-138 | the Damage part: the hit, the kill mark, the splash of the excess onto x+1, then Drain |
| LegacyAction.SplashPass | Assets/Scripts/ActionSystem/Action.cs:131-137 | the splash onto the next column's card, or a throw when that tile is off the grid or empty |
| LegacyAction.Drained | Assets/Scripts/ActionSystem/Action.cs:136-137 | Drain heals the actor by the damage dealt |
| LegacyAction.Pass | Assets/Scripts/ActionSystem/Action.cs:108-142 | one target space: Heal, Damage, Provoke in that order; an empty space throws |
| LegacyAction.Damaged | Assets/Scripts/ActionSystem/Action.cs:117-138 | the Damage part runs only when the action damages |
| LegacyAction.ProvokePass | Assets/Scripts/ActionSystem/Action.cs:140-141 | the card on the space is provoked; no card there throws |
| LegacyAction.Run | Assets/Scripts/ActionSystem/Action.cs:106-142 | the passes over the spaces in list order, up to the first throw |
| LegacyAction.Performed | Assets/Scripts/ActionSystem/Action.cs:104-146 | the passes, then the energy rule |
| LegacyAction.PassOn | Assets/Scripts/ActionSystem/Action.cs:108-142 | the loop body equals Pass |
| LegacyAction.RunThrown | Assets/Scripts/ActionSystem/Action.cs:108-142 | once a pass throws, later spaces change nothing |
| LegacyAction.PassKeepsEnergy | Assets/Scripts/ActionSystem/Action.cs:108-142 | a pass never changes energy or exhaustion |
| LegacyAction.HealedKeepsEnergy | Assets/Scripts/ActionSystem/Action.cs:112-115 | the Heal part changes only health |
| LegacyAction.EnergyKeptTransitive | Assets/Scripts/ActionSystem/Action.cs:108-142 | keeping energy composes across passes |
| LegacyAction.RunKeepsEnergy | Assets/Scripts/ActionSystem/Action.cs:108-142 | the passes never touch energy |
| LegacyAction.PerformedEnergy | Assets/Scripts/ActionSystem/Action.cs:144-145 | a completed action lowers the actor's energy by the cost iff no target was slain or it lacks Momentum; a thrown one spends nothing |
| LegacyAction.PassSlain | Assets/Scripts/ActionSystem/Action.cs:110-129 | a completed pass sets the kill flag iff it was set already or the action damages and has Momentum or Overkill with the space's health at most the power; a pass that throws sets it only for such a hit |
| LegacyAction.RunSlain | Assets/Scripts/ActionSystem/Action.cs:126-129 | only a damaging Momentum or Overkill action ever sets the flag |
| LegacyAction.PassSplash | Assets/Scripts/ActionSystem/Action.cs:131-133 | health strictly below the power completes only with a card on the next column, which loses exactly the excess |
| LegacyAction.ProvokeAfterKillThrows | Assets/Scripts/ActionSystem/Action.cs:122-141 | a Damage and Provoke action that kills throws at Provoke and spends nothing |
| LegacyAction.DamageEmptiesSpace | Assets/Scripts/ActionSystem/Action.cs:122 | a lethal hit leaves the space empty |
| LegacyAction.LegacyRangeTilesMembers | Assets/Scripts/ActionSystem/Action.cs:176-190 | each range's tiles are the ones the legacy ranges describe |
| LegacyAction.RangeOfMembers | Assets/Scripts/ActionSystem/Action.cs:168-190 | provoked: only the provoker's tile; otherwise exactly the range's tiles from the unit's tile |
| LegacyAction.Action.constructor | Assets/Scripts/ActionSystem/Action.cs:8-17 | a new component holds its asset and card, with no valid-tile list |
| LegacyAction.Action.InitializeAction | Assets/Scripts/ActionSystem/Action.cs:150-154 | the side and cost are copied from the card and the asset |
| LegacyAction.Action.OnMouseDown | Assets/Scripts/ActionSystem/Action.cs:44-48 | selected iff it is player 1's turn, else unchanged |
| LegacyAction.Action.SetRange | Assets/Scripts/ActionSystem/Action.cs:166-191 | the list becomes RangeOf; a provoked unit with no list throws |
| LegacyAction.Action.PerformAction | Assets/Scripts/ActionSystem/Action.cs:104-146 | the outcome is Performed over the target spaces |
| LegacyAction.Action.HandleTargetting | Assets/Scripts/ActionSystem/Action.cs:50-101 | under the guard (mouse-up, cost within energy, not exhausted) the target spaces are built as written, and a Burst reaching a negative column throws with the world unchanged and the action still selected; otherwise the action fires iff the hit tile is valid and occupied, over the as-written spaces |
| OriginalAction.Hit | Assets/Scripts/Action.cs:103-109 | TakeDamage without DeathTouch on a unit in play |
| OriginalAction.HealOn | Assets/Scripts/Action.cs:90 | the null-conditional heal of one tile's card |
| OriginalAction.HitOn | Assets/Scripts/Action.cs:103 | the null-conditional hit of one tile's card |
| OriginalAction.HealAll | Assets/Scripts/Action.cs:88-90 | the Cleave heal never moves a unit |
| OriginalAction.DamageAll | Assets/Scripts/Action.cs:99-105 | the Cleave damage gives no tile a new occupant |
| OriginalAction.HealTiles | Assets/Scripts/Action.cs:89-90 | the heal loop equals HealAll |
| OriginalAction.DamageTiles | Assets/Scripts/Action.cs:101-105 | the damage loop equals DamageAll and counts the power once per valid tile |
| OriginalAction.HealAllUntouched | Assets/Scripts/Action.cs:88-90 | a unit off the valid tiles is untouched |
| OriginalAction.HealAllOnce | Assets/Scripts/Action.cs:88-90 | a unit on a valid tile heals exactly once |
| OriginalAction.DamageAllUntouched | Assets/Scripts/Action.cs:99-105 | a unit off the valid tiles is untouched |
| OriginalAction.DamageAllOnce | Assets/Scripts/Action.cs:99-105 | a unit on a valid tile is hit exactly once |
| OriginalAction.Healing | Assets/Scripts/Action.cs:86-93 | the Heal part never moves a unit |
| OriginalAction.Damaging | Assets/Scripts/Action.cs:94-115 | the Damage part gives no tile a new occupant |
| OriginalAction.Effect | Assets/Scripts/Action.cs:86-115 | Heal or else Damage, never both |
| OriginalAction.Provoked | Assets/Scripts/Action.cs:117-118 | the Provoke step throws exactly when it needs a card and the space is empty |
| OriginalAction.HealEffect | Assets/Scripts/Action.cs:86-93 | a Heal action only heals: once per valid tile under Cleave and once more for the target |
| OriginalAction.DamageEffect | Assets/Scripts/Action.cs:94-115 | a Damage action hits the target once, or each unit on a valid tile once with Cleave; Drain heals by power times the number of valid tiles, or by the power |
| OriginalAction.ProvokeEffect | Assets/Scripts/Action.cs:117-118 | the target is provoked by the actor unless the hit killed it and emptied the space |
| OriginalAction.PerformedEnergy | Assets/Scripts/Action.cs:117-123 | nothing is spent after a Provoke that threw; otherwise the cost is spent unless Momentum and the target's health at most 0 |
| OriginalAction.AsWrittenAgreement | Assets/Scripts/Action.cs:120-123 | the written and corrected Momentum tests agree except after a kill on the target space |
| OriginalAction.MomentumKill | Assets/Scripts/Action.cs:109-121 | a lethal single Momentum hit throws as written, spending nothing; corrected, it completes and the energy is kept |
| OriginalAction.Action.constructor | Assets/Scripts/Action.cs:7-16 | a new component holds its asset and card, with no valid-tile list |
| OriginalAction.Action.InitializeAction | Assets/Scripts/Action.cs:128-134 | the side and cost are copied from the card and the asset |
| OriginalAction.Action.OnMouseDown | Assets/Scripts/Action.cs:38-42 | selected iff it is player 1's turn, else unchanged |
| OriginalAction.Action.SetRange | Assets/Scripts/Action.cs:148-159 | the provoker's tile when provoked, else the tiles in range; a provoked unit with no list throws |
| OriginalAction.Action.HealPart | Assets/Scripts/Action.cs:86-93 | equals Healing |
| OriginalAction.Action.DamagePart | Assets/Scripts/Action.cs:94-115 | equals Damaging |
| OriginalAction.Action.PerformAction | Assets/Scripts/Action.cs:84-124 | equals PerformedAsWritten: Heal or else Damage, then Provoke, then the Momentum test on the target space, which throws after a kill |
| OriginalAction.Action.HandleTargetting | Assets/Scripts/Action.cs:44-81 | DrawCard lowers energy by the cost and returns before targeting; otherwise the action fires iff the guard holds, with the as-written outcome, and a throw leaves it selected |
| SpellSystem.HalfTowardZero | Assets/Scripts/CardSystem/SpellSystem/SpellSystem.cs:45-46 | C# division by 2, truncated toward zero |
| SpellSystem.Low | Assets/Scripts/CardSystem/SpellSystem/SpellSystem.cs:50-52 | the footprint's first cell is never below column or row 0: the clamp at the board's low edge |
| SpellSystem.High | Assets/Scripts/CardSystem/SpellSystem/SpellSystem.cs:51-53 | the footprint's last cell never passes the last column or row: the clamp at the high edge |
| SpellSystem.TargetAreaMembers | Assets/Scripts/CardSystem/SpellSystem/SpellSystem.cs:42-79 | a tile is a target iff it is in the clamped footprint and on the side the flags select (the self flag ignored); on the board, x-then-y, none twice |
| SpellSystem.FootprintSpan | Assets/Scripts/CardSystem/SpellSystem/SpellSystem.cs:45-53 | away from the edges a positive extent spans exactly that many cells |
| SpellSystem.ZeroExtentSpansTwo | Assets/Scripts/CardSystem/SpellSystem/SpellSystem.cs:45-48 | an extent of 0 still covers two cells |
| SpellSystem.TilesAreMembers | Assets/Scripts/CardSystem/SpellSystem/SpellSystem.cs:59-86 | a grid tile is collected iff its position is in the area |
| SpellSystem.GetTargetTiles | Assets/Scripts/CardSystem/SpellSystem/SpellSystem.cs:38-91 | returns the tiles of TargetArea and marks each grid tile active iff collected; fewer than two flags throws first |
| SpellSystem.CollectTiles | Assets/Scripts/CardSystem/SpellSystem/SpellSystem.cs:55-79 | the first loop collects the tiles of TargetArea |
| SpellSystem.AreaByScan | Assets/Scripts/CardSystem/SpellSystem/SpellSystem.cs:55-79 | the column-by-column scan is TargetArea |
| SpellSystem.CollectColumn | Assets/Scripts/CardSystem/SpellSystem/SpellSystem.cs:57-78 | one column of that loop |
| SpellSystem.MarkColumn | Assets/Scripts/CardSystem/SpellSystem/SpellSystem.cs:83-87 | each tile of column x becomes active iff it was collected |
| SpellSystem.SpellOn | Assets/Scripts/CardSystem/SpellSystem/SpellSystem.cs:13-36 | one target: the damage (power, DeathTouch tag) when it damages, then the heal |
| SpellSystem.Cast | Assets/Scripts/CardSystem/SpellSystem/SpellSystem.cs:11-22 | the targets in list order |
| SpellSystem.PerformSpell | Assets/Scripts/CardSystem/SpellSystem/SpellSystem.cs:6-23 | the loop's result is Cast |
| SpellSystem.SpellOnEffect | Assets/Scripts/CardSystem/SpellSystem/SpellSystem.cs:11-22 | only the target's health changes, damage then heal; it leaves its tile iff the damage alone is lethal |
| SpellSystem.CastEffect | Assets/Scripts/CardSystem/SpellSystem/SpellSystem.cs:11-22 | each listed unit ends with its spell vitals; others are untouched |
| SpellSystem.DamageBeforeHeal | Assets/Scripts/CardSystem/SpellSystem/SpellSystem.cs:13-21 | a damage-and-heal spell kills a target at or below its power and then heals the dead card |
| Tokens.ActionAsset.constructor | Assets/Scripts/Serialization/ActionInfoToken.cs:27-37 | a fresh asset holds the serialised defaults |
| Tokens.ActionAsset.Info | Assets/Scripts/Serialization/ActionInfoToken.cs:27-37 | the asset's current field values |
| Tokens.ActionAsset.CopyToActionInfo | Assets/Scripts/Serialization/ActionInfoToken.cs:27-37 | every field is overwritten from the token, whatever it held |
| Tokens.TokenOfAction | Assets/Scripts/Serialization/ActionInfoToken.cs:16-25 | the token copies each field of the action |
| Tokens.ActionOf | Assets/Scripts/Serialization/ActionInfoToken.cs:27-37 | the action copied back holds each field of the token |
| Tokens.ActionRoundTrip | Assets/Scripts/Serialization/ActionInfoToken.cs:16-36 | copying a token back restores the action |
| Tokens.ActionTokenRoundTrip | Assets/Scripts/Serialization/ActionInfoToken.cs:16-36 | the token of the copied action is the token again |
| Tokens.ConvertActionsToTokens | Assets/Scripts/Serialization/CardInfoToken.cs:48-56 | one token per action, in order |
| Tokens.ConvertTokensToActions | Assets/Scripts/Serialization/CardInfoToken.cs:58-68 | one action per token, in order, through a fresh asset each |
| Tokens.TokensOfActions | Assets/Scripts/Serialization/CardInfoToken.cs:48-56 | one token per action, in order, each copying its action |
| Tokens.ActionsOfTokens | Assets/Scripts/Serialization/CardInfoToken.cs:58-68 | one action per token, in order, each copied from its token |
| Tokens.TokenOf | Assets/Scripts/Serialization/CardInfoToken.cs:19-30 | the token keeps Name, Health, Power, Energy, Cost and Keywords, with the actions converted |
| Tokens.CardOf | Assets/Scripts/Serialization/CardInfoToken.cs:32-46 | the card keeps those fields, converts the actions back, and has no tribes |
| Tokens.NewCardInfoToken | Assets/Scripts/Serialization/CardInfoToken.cs:19-30 | the constructor gives TokenOf |
| Tokens.ToCardInfo | Assets/Scripts/Serialization/CardInfoToken.cs:32-46 | gives CardOf |
| Tokens.CardRoundTrip | Assets/Scripts/Serialization/CardInfoToken.cs:19-68 | card to token and back keeps every field and the actions, and loses only the tribes |
| Tokens.TokenRoundTrip | Assets/Scripts/Serialization/CardInfoToken.cs:19-68 | token to card and back is the same token |
| Tokens.TokenEqualsByName | Assets/Scripts/Serialization/CardInfoToken.cs:85-95 | two tokens are Equal iff their Names are equal, symmetrically |
| Tokens.TokenEqualsRejects | Assets/Scripts/Serialization/CardInfoToken.cs:85-90 | null and other types are never Equal |
| Tokens.TokenHash | Assets/Scripts/Serialization/CardInfoToken.cs:97-105 | the hash wraps 17 * 23 + the Name's hash into 32 bits |
| Tokens.EqualTokensHashEqually | Assets/Scripts/Serialization/CardInfoToken.cs:85-105 | Equal tokens hash equally |
| Decks.TotalRemove | Assets/Scripts/UI/Managers/CardCollectionManager.cs:240-253 | the sum of counts does not depend on which key is taken first |
| Decks.TotalUpdate | Assets/Scripts/UI/Managers/CardCollectionManager.cs:240-253 | replacing one entry changes the sum by the difference of counts |
| Decks.TotalRemoveKey | Assets/Scripts/UI/Managers/CardCollectionManager.cs:240-253 | removing a key lowers the sum by its count |
| Decks.Repeat | Assets/Scripts/Managers/GameManager.cs:122-125 | count copies of the card; none when count is not positive |
| Decks.ExpandConcat | Assets/Scripts/Managers/GameManager.cs:120-127 | laying out two runs of keys lays out each in turn |
| Decks.CountName | Assets/Scripts/Managers/GameManager.cs:116-129 | the number of list elements with a Name |
| Decks.ExpandCounts | Assets/Scripts/Managers/GameManager.cs:116-129 | each card appears exactly count times, and nothing else appears |
| Decks.ExpandLength | Assets/Scripts/Managers/GameManager.cs:116-129 | the layout's length is the sum of the counts |
| Decks.ExpandContiguous | Assets/Scripts/Managers/GameManager.cs:120-126 | copies of one card are adjacent |
| Decks.ExpandNames | Assets/Scripts/Managers/GameManager.cs:116-129 | every element is the card of a key in the order |
| Decks.CollapseCounts | Assets/Scripts/Serialization/SaveDeckSystem.cs:89-103 | each Name's count is its number of occurrences, and the first card with it is kept |
| Decks.CollapseWellKeyed | Assets/Scripts/Serialization/SaveDeckSystem.cs:89-103 | the collapsed deck is keyed by each card's own Name |
| Decks.CollapseExpand | Assets/Scripts/Serialization/SaveDeckSystem.cs:42-103 | collapsing the layout of a deck with positive counts gives the deck back |
| Decks.CardQueue.constructor | Assets/Scripts/Managers/GameManager.cs:118 | a new queue is empty |
| Decks.CardQueue.Count | Assets/Scripts/Managers/HandManager.cs:72 | the number of queued cards |
| Decks.CardQueue.Enqueue | Assets/Scripts/Managers/GameManager.cs:124 | the card goes to the back |
| Decks.CardQueue.Dequeue | Assets/Scripts/Managers/HandManager.cs:74 | the front card is returned and removed |
| Decks.CardQueue.Clear | Assets/Scripts/Managers/GameManager.cs:153 | the queue becomes empty |
| GameManagement.CreateCardQueue | Assets/Scripts/Managers/GameManager.cs:116-129 | a fresh queue holding the deck's layout in enumeration order |
| GameManagement.Swap | Assets/Scripts/Managers/GameManager.cs:148-150 | positions i and j are exchanged; the rest is unchanged |
| GameManagement.SwapPermutes | Assets/Scripts/Managers/GameManager.cs:148-150 | a swap keeps the multiset |
| GameManagement.ShuffleFrom | Assets/Scripts/Managers/GameManager.cs:145-151 | the steps from i down to 1 keep the length |
| GameManagement.ShufflePermutes | Assets/Scripts/Managers/GameManager.cs:145-151 | the shuffle keeps the multiset |
| GameManagement.ShuffleKeepsAbove | Assets/Scripts/Managers/GameManager.cs:145-151 | steps at i and below never touch positions above i |
| GameManagement.ShuffleSettles | Assets/Scripts/Managers/GameManager.cs:145-151 | the last position ends with the element drawn at the first step |
| GameManagement.ShuffleList | Assets/Scripts/Managers/GameManager.cs:142-151 | the in-place loop, with draws[i] in [0, i], gives Shuffle of the old list |
| GameManagement.GameManager.constructor | Assets/Scripts/Managers/GameManager.cs:11-14 | no deck chosen and no queue built |
| GameManagement.GameManager.SetCurrentDeck1 | Assets/Scripts/Managers/GameManager.cs:17-37 | stores the choice; a non-default one rebuilds player 1's queue from its dictionary, or throws on a null dictionary |
| GameManagement.GameManager.SetCurrentDeck2 | Assets/Scripts/Managers/GameManager.cs:38-53 | the same for player 2 |
| GameManagement.GameManager.GetCardQueue | Assets/Scripts/Managers/GameManager.cs:163-166 | player 1's queue iff player == 1, else player 2's |
| GameManagement.GameManager.ShuffleCardQueue | Assets/Scripts/Managers/GameManager.cs:138-161 | the selected queue becomes Shuffle of its contents; a missing queue throws |
| CardCollection.SumCountsFrame | Assets/Scripts/UI/Managers/CardCollectionManager.cs:240-253 | the sum reads only the listed entries |
| CardCollection.SumCountsTotal | Assets/Scripts/UI/Managers/CardCollectionManager.cs:240-253 | summing in any enumeration order gives the deck's total |
| CardCollection.AddedEffect | Assets/Scripts/UI/Managers/CardCollectionManager.cs:87-107 | a full deck or a capped card changes nothing; otherwise one copy is added (a new card with count 1) and the rest is unchanged |
| CardCollection.AddedKeepsLimits | Assets/Scripts/UI/Managers/CardCollectionManager.cs:87-107 | with cardLimit >= 1, both limits and the Name keying hold after adding |
| CardCollection.RemovedEffect | Assets/Scripts/UI/Managers/CardCollectionManager.cs:113-129 | one copy goes, the key goes with the last copy, and an absent card changes nothing |
| CardCollection.RemovedKeepsLimits | Assets/Scripts/UI/Managers/CardCollectionManager.cs:113-129 | both limits still hold after removing |
| CardCollection.DeckNameOf | Assets/Scripts/UI/Managers/CardCollectionManager.cs:255-268 | the typed text if non-empty, else "New Deck" |
| CardCollection.DeckNameNonEmpty | Assets/Scripts/UI/Managers/CardCollectionManager.cs:255-268 | a deck name is never empty |
| CardCollection.CardCollectionManager.constructor | Assets/Scripts/UI/Managers/CardCollectionManager.cs:13-36 | an empty deck with limits 30 and 3 |
| CardCollection.CardCollectionManager.CardsInDeck | Assets/Scripts/UI/Managers/CardCollectionManager.cs:240-253 | the sum of all counts |
| CardCollection.CardCollectionManager.AddCardToDeck | Assets/Scripts/UI/Managers/CardCollectionManager.cs:87-107 | the deck becomes Added of the old deck; the limits are unchanged |
| CardCollection.CardCollectionManager.RemoveCardFromDeck | Assets/Scripts/UI/Managers/CardCollectionManager.cs:113-129 | the deck becomes Removed of the old deck |
| CardCollection.CardCollectionManager.DeckName | Assets/Scripts/UI/Managers/CardCollectionManager.cs:255-268 | DeckNameOf the input text |
| CardCollection.CardCollectionManager.SaveDeck | Assets/Scripts/UI/Managers/CardCollectionManager.cs:191-203 | saves iff the deck holds exactly deckLimit cards, under the deck's path, and otherwise stores nothing |
| CardCollection.CardCollectionManager.LoadDeck | Assets/Scripts/UI/Managers/CardCollectionManager.cs:205-229 | the deck becomes exactly the loaded one; a null dictionary throws after clearing |
| SaveDecks.DeckStore.constructor | Assets/Scripts/Serialization/SaveDeckSystem.cs:12 | the data path and files are stored |
| SaveDecks.CustomDecksPath | Assets/Scripts/Serialization/SaveDeckSystem.cs:12 | the CustomDecks directory under the data path |
| SaveDecks.DeckFilePath | Assets/Scripts/Serialization/SaveDeckSystem.cs:22-32 | Path.Combine of that directory and name + ".deck"; a rooted name replaces the directory |
| SaveDecks.DeckFilePathExtension | Assets/Scripts/Serialization/SaveDeckSystem.cs:22-32 | every deck path ends in ".deck" |
| SaveDecks.DeckFilePathInjective | Assets/Scripts/Serialization/SaveDeckSystem.cs:22-32 | distinct unrooted names get distinct files |
| SaveDecks.TokensOf | Assets/Scripts/Serialization/SaveDeckSystem.cs:42-50 | one token per card, in order |
| SaveDecks.CardsOf | Assets/Scripts/Serialization/SaveDeckSystem.cs:89-103 | one card per token, in order |
| SaveDecks.SaveDeckToFile | Assets/Scripts/Serialization/SaveDeckSystem.cs:39-62 | the deck's file holds one token per copy, entry by entry; other files are unchanged |
| SaveDecks.LoadResult | Assets/Scripts/Serialization/SaveDeckSystem.cs:70-107 | fails with the not-found message iff there is no file; otherwise the file's cards collapsed |
| SaveDecks.LoadDeckFromFile | Assets/Scripts/Serialization/SaveDeckSystem.cs:70-107 | equals LoadResult of the stored files |
| SaveDecks.Untribed | Assets/Scripts/Serialization/SaveDeckSystem.cs:42-103 | the deck with every card's tribes cleared |
| SaveDecks.ExpandUntribed | Assets/Scripts/Serialization/SaveDeckSystem.cs:42-103 | the saved list read back is the layout of the untribed deck |
| SaveDecks.SaveThenLoad | Assets/Scripts/Serialization/SaveDeckSystem.cs:12-107 | loading a just-saved name gives the deck back, losing only the tribes |
| DebugTools.PiecesJoined | Assets/Scripts/DebugTools.cs:14-22 | the loop's pieces are the items joined by the separator |
| DebugTools.ListToString | Assets/Scripts/DebugTools.cs:8-26 | newline, "[", the items joined by ", " and newline, then "]" |
| DebugTools.EmptyList | Assets/Scripts/DebugTools.cs:12-23 | an empty list prints newline then "[]" |
| DebugTools.SingleItem | Assets/Scripts/DebugTools.cs:8-26 | a single item prints with no separator |
| DebugTools.NextItem | Assets/Scripts/DebugTools.cs:8-26 | each further item adds a separator and the item |
| DebugTools.NatText | Assets/Scripts/DebugTools.cs:48 | decimal digits of a natural number |
| DebugTools.IntText | Assets/Scripts/DebugTools.cs:48 | a leading '-' iff negative, followed by digits |
| DebugTools.CardDataText | Assets/Scripts/DebugTools.cs:28-62 | the name, then the position with no separator for a placed unit |
| DebugTools.UnitText | Assets/Scripts/DebugTools.cs:64-95 | the name, then ": " and the position when placed |
| DebugTools.PlacedUnitTexts | Assets/Scripts/DebugTools.cs:45-84 | the two overloads print a placed unit differently |
| DebugTools.ListToStringCards | Assets/Scripts/DebugTools.cs:28-62 | the list layout over the CardData texts |
| DebugTools.ListToStringUnits | Assets/Scripts/DebugTools.cs:64-95 | the list layout over the UnitCardData texts |
| DebugTools.ActionToString | Assets/Scripts/DebugTools.cs:120-140 | a unit play's text twice, a spell play or other action once, null nothing |
| DebugTools.ListToStringActions | Assets/Scripts/DebugTools.cs:97-118 | the list layout over the action texts |

## Left out

- UnitCard is not part of this model. The spell and action systems of `Assets/Scripts/CardSystem` call it, and the model gives `UnitCard.TakeDamage` and `UnitCard.Heal` the semantics of `Assets/Scripts/Card.cs:248-268`.
- ActionSystem.PerformAction: when a pass throws at the Overkill splash, the model returns `None` and drops the effects on the earlier targets, and the Heal and hit of the failing pass, which the source keeps.
- Decks: the deck dictionary is keyed by Name alone, while `CardInfo.Equals` also compares runtime types (`CardInfo.cs:83`). `CardInfoToken.ToCardInfo` creates base `CardInfo` assets, so a loaded deck's cards and the collection's UnitInfo/SpellInfo cards of the same Name are different keys in the source and the same key in the model.
- CardCollection.CardCollectionManager.AddCardToDeck: after LoadDeck, adding a UnitInfo or SpellInfo card whose Name is already in the deck gives the source a second entry with count 1, past the per-card cap and apart from the loaded copies; the model increments the loaded entry, within the cap.
- Rendering, animation, input and raycasts are not modelled: `Card.Update`, `OnMouseEnter`/`OnMouseExit`, the selection by left click (`Card.cs:88-95`), `AdvanceCoroutine` and the movement helpers, `HandManager.CenterCardsInHand`, tile colours and highlights, the arrow, and the animator triggers. These are frame loops, float geometry and engine calls. The mouse-up and raycast result of HandleTargetting are parameters.
- Unity events, delegates and the singleton lifecycle are replaced by direct calls on explicit state.
- File I/O is not modelled: `BinaryFormatter`, `FileStream` and `Directory.CreateDirectory`. The stored files are a map from path to token list, and '/' is the path separator.
- `System.Random` is not modelled. Its draws are a parameter, with each `draws[i]` in [0, i].
- Dictionary enumeration order is not modelled. It is a parameter that lists each key once.
- The 32-bit overflow of sums, health and supply is not modelled. The hash wrap-around is.
- `GameManager.StartGame`, `StartGameCoroutine`, `SelectAIDeckFromFolder`, `ChangeScene`, `QuitGame` and `DebugDeck` are left out. They are scene loading, folder scanning and logging.
- `Debug.Log` output, including `ActionSystem.DebugList`, is left out.
- `GridManager.CanAdvance` reads `GameManager.Instance.CurrentTurn`, but no such member exists in `GameManager.cs`. The model passes the turn state the caller has (TurnManager's `CurrentTurn`). The oldest `Action.cs` reads the same missing member; there the turn is passed as a flag.
- `HandManager.DrawCards` calls `GetCardQueue()` with no argument, but `GameManager.GetCardQueue` takes a player. The queue is therefore a parameter.
- `GridManager.GetTilesInRange`, which the oldest `Action.cs` calls, is not part of this model. Its result is a parameter of `OriginalAction.Action.SetRange`.
- `GridManager.GridWidth` and `GridHeight`, which SpellSystem reads, are taken as 6 and 5.
- `SpellInfo` and `SpellCard` are not part of this model. A spell is its power and its Damage, Heal and DeathTouch tags.
- `Tile.SetIsPlayer1` and `Tile.SetTileActive` are not in `Tile.cs`. They are modelled from their call sites: each sets one flag.
- The CardInfo property setters are not separate members. In Dafny they are datatype field updates, which change exactly the named field.
- Sprites and the animator controller are not modelled. Card tribes are kept as ordinals, since the CardTribe enum is not part of this model.
- Null strings read from a loaded deck or a fresh asset are taken as "".
- OriginalAction.Hit: the oldest revision calls `TakeDamage(int)`, whose Card.cs is not part of this model. It is taken as a hit without DeathTouch.
- The UI refresh of the deck panel after an add, remove or load is not modelled.
- Card.cs and the scene classes are modelled for one board. The hand's card objects are assumed distinct from the board's.

## Findings

| source | as written | input that shows it | evidently intended | confidence | as-written member | corrected member |
|---|---|---|---|---|---|---|
| Assets/Scripts/Managers/GridManager.cs:77-80 | GetBoardHalf keeps tiles with x < 0 for player 1 and x > 0 for player 2 | GetBoardHalf(true) on the built grid returns no tile; GetBoardHalf(false) returns the 25 tiles of columns 1 to 5 | each player's own three columns, x < 3 and x >= 3, as SpawnTile assigns (line 28) | not executed | GridManagement.BoardHalfAsWrittenEmptyForPlayer1, GridManagement.BoardHalfAsWrittenForPlayer2 | GridManagement.BoardHalf |
| Assets/Scripts/ActionSystem/Action.cs:73-74 | Cleave adds the row below only when y - 1 > 0 | a Cleave hit on row 1 leaves out the tile on row 0 | y - 1 >= 0, matching the y + 1 < 5 test above it | not executed | LegacyAction.TargetSpaces, LegacyAction.CleaveSkipsRowZero | LegacyAction.TargetSpacesMembers |
| Assets/Scripts/ActionSystem/Action.cs:82-85 | Burst tests only x + d < 6 and x + 2d < 6 | a player 2 Burst hit on column 1 indexes column -1 and throws | both bounds, 0 <= x + d < 6 | not executed | LegacyAction.TargetSpaces, LegacyAction.BurstLeavesBoard | LegacyAction.TargetSpacesMembers |
| Assets/Scripts/Action.cs:120-121 | the Momentum test reads `targetSpace.ActiveCard.GetHealth` after the hit | a Momentum Damage action whose hit kills the target: the tile is empty and the read throws, so no energy is refunded or spent | read the health of the card that was hit | not executed | OriginalAction.Action.PerformAction, OriginalAction.MomentumKill | OriginalAction.PerformedEnergy |
