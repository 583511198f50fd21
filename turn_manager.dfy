/**
 * The turn manager: steps through the phases of a turn, and in the Advance phase moves the
 * scale towards the player whose turn it is, which opens or closes columns of the board.
 */
module TurnManagement {
  import opened Wrappers
  import opened Geometry
  import opened Scene
  import opened TurnCycle
  import opened GridManagement

  /** The direction the scale moves on a player's Advance: +1 for player 1, -1 for player 2. */
  function ScaleStep(turn: GameState): int {
    if turn == Player1Turn then 1 else -1
  }

  /** The visibility UpdateColumnsVisibility gives column x at a scale; None for a column it leaves alone. */
  function ColumnShown(scale: int, x: int): Option<bool> {
    if x == 5 then Some(scale == 2 || scale == -2)
    else if x == 4 then Some(scale == 3 || scale == -4)
    else if x == 1 then Some(scale == -3)
    else if x == 0 then Some(scale == -2)
    else None
  }

  /** The visibility map UpdateColumnsVisibility leaves: columns 5, 4, 1 and 0 set from the scale, in that order. */
  function ScaleVisibility(v: map<Pos, bool>, scale: int): map<Pos, bool> {
    var v5 := ShowColumn(v, 5, scale == 2 || scale == -2);
    var v4 := ShowColumn(v5, 4, scale == 3 || scale == -4);
    var v1 := ShowColumn(v4, 1, scale == -3);
    ShowColumn(v1, 0, scale == -2)
  }

  /** After UpdateColumnsVisibility a toggled column shows exactly what the scale says; the others keep their visibility. */
  lemma ScaleVisibilityMeaning(v: map<Pos, bool>, scale: int, p: Pos)
    requires p in v
    ensures p in ScaleVisibility(v, scale)
    ensures ScaleVisibility(v, scale)[p] == match ColumnShown(scale, p.x) case Some(shown) => shown case None => v[p]
  {
  }

  /** The turn manager's state as a value. */
  datatype Phase = Phase(turn: GameState, phase: TurnState, scale: int)

  /**
   * One NextPhase call: the phase moves on, and on reaching Advance the scale moves by the
   * current player's step when the opponent's frontline is empty.
   */
  function Step(s: Phase, canAdvance: bool): Phase {
    var next := NextPhase(s.turn, s.phase);
    Phase(next.0, next.1, if next.1 == Advance && canAdvance then s.scale + ScaleStep(next.0) else s.scale)
  }

  /** n NextPhase calls over a board whose frontlines do not change. */
  function Run(s: Phase, canAdvance: GameState -> bool, n: nat): Phase
    decreases n
  {
    if n == 0 then s else Run(Step(s, canAdvance(s.turn)), canAdvance, n - 1)
  }

  /** The scale moves only on entering the Advance phase, by exactly one step, and only when advancing is allowed. */
  lemma ScaleMovesOnlyOnAdvance(s: Phase, canAdvance: bool)
    ensures Step(s, canAdvance).scale != s.scale <==> s.phase == PlayPhase && canAdvance
    ensures Step(s, canAdvance).scale != s.scale ==> Step(s, canAdvance).scale == s.scale + ScaleStep(s.turn)
    ensures (Step(s, canAdvance).turn, Step(s, canAdvance).phase) == NextPhase(s.turn, s.phase)
  {
  }

  /**
   * A whole turn (five NextPhase calls from TurnStart) hands the turn to the other player and
   * moves the scale by at most one step, towards the player who had the turn.
   */
  lemma {:induction false} FullTurn(turn: GameState, scale: int, canAdvance: GameState -> bool)
    ensures Run(Phase(turn, TurnStart, scale), canAdvance, 5)
      == Phase(Other(turn), TurnStart, if canAdvance(turn) then scale + ScaleStep(turn) else scale)
  {
    var s0 := Phase(turn, TurnStart, scale);
    var s1 := Step(s0, canAdvance(turn));
    var s2 := Step(s1, canAdvance(turn));
    var s3 := Step(s2, canAdvance(turn));
    var s4 := Step(s3, canAdvance(turn));
    var s5 := Step(s4, canAdvance(turn));
    assert s2 == Phase(turn, Advance, if canAdvance(turn) then scale + ScaleStep(turn) else scale);
    assert Run(s0, canAdvance, 5) == Run(s1, canAdvance, 4) == Run(s2, canAdvance, 3);
    assert Run(s2, canAdvance, 3) == Run(s3, canAdvance, 2) == Run(s4, canAdvance, 1) == s5;
  }

  /** Columns 2 and 3, the frontlines, are never opened or closed by the scale. */
  lemma FrontlinesNeverToggled(scale: int)
    ensures ColumnShown(scale, 2) == None && ColumnShown(scale, 3) == None
    ensures forall x :: ColumnShown(scale, x).Some? <==> x in {0, 1, 4, 5}
  {
  }

  class TurnManager {
    var scale: int
    var currentTurn: GameState
    var currentTurnState: TurnState
    /** GridManager.Instance. */
    const gridManager: GridManager

    function Status(): Phase
      reads this
    {
      Phase(currentTurn, currentTurnState, scale)
    }

    ghost predicate Valid()
      reads this, gridManager, gridManager.grid, gridManager.tiles
    {
      gridManager.Valid()
    }

    /** The serialized defaults: scale 0, player 1's TurnStart. */
    constructor(gridManager: GridManager)
      ensures this.gridManager == gridManager
      ensures Status() == Phase(Player1Turn, TurnStart, 0)
    {
      this.gridManager := gridManager;
      scale := 0;
      currentTurn := Player1Turn;
      currentTurnState := TurnStart;
    }

    method NextPhase()
      requires Valid()
      modifies this`currentTurn, this`currentTurnState, this`scale, gridManager.tiles`visible
      ensures Valid()
      ensures Status() == Step(old(Status()), old(gridManager.CanAdvanceFor(currentTurn)))
      ensures scale != old(scale) ==> gridManager.Visibility() == ScaleVisibility(old(gridManager.Visibility()), scale)
      ensures scale == old(scale) ==> gridManager.Visibility() == old(gridManager.Visibility())
    {
      if currentTurnState == TurnEnd {
        currentTurn := if currentTurn == Player1Turn then Player2Turn else Player1Turn;
        currentTurnState := TurnStart;
      } else {
        currentTurnState := match currentTurnState
          case TurnStart => PlayPhase
          case PlayPhase => Advance
          case Advance => DrawCards
          case DrawCards => TurnEnd;
      }
      ExecuteCurrentTurnState();
    }

    /** Only the Advance phase has an effect modelled here: when advancing is allowed, IncrementScale. */
    method ExecuteCurrentTurnState()
      requires Valid()
      modifies this`scale, gridManager.tiles`visible
      ensures Valid()
      ensures scale == (if currentTurnState == Advance && old(gridManager.CanAdvanceFor(currentTurn))
                        then old(scale) + ScaleStep(currentTurn) else old(scale))
      ensures scale != old(scale) ==> gridManager.Visibility() == ScaleVisibility(old(gridManager.Visibility()), scale)
      ensures scale == old(scale) ==> gridManager.Visibility() == old(gridManager.Visibility())
    {
      if currentTurnState == Advance {
        var canAdvance := gridManager.CanAdvance(currentTurn);
        if canAdvance {
          IncrementScale(currentTurn);
        }
      }
    }

    method IncrementScale(state: GameState)
      requires Valid()
      modifies this`scale, gridManager.tiles`visible
      ensures Valid()
      ensures scale == old(scale) + ScaleStep(state)
      ensures gridManager.Visibility() == ScaleVisibility(old(gridManager.Visibility()), scale)
    {
      ghost var visible0 := gridManager.Visibility();
      var player1Turn := state == Player1Turn;
      scale := scale + (if player1Turn then 1 else -1);
      assert gridManager.Visibility() == visible0;
      UpdateColumnsVisibility();
    }

    method UpdateColumnsVisibility()
      requires Valid()
      modifies gridManager.tiles`visible
      ensures Valid()
      ensures gridManager.Visibility() == ScaleVisibility(old(gridManager.Visibility()), scale)
    {
      gridManager.ColumnSetActive(5, scale == 2 || scale == -2);
      gridManager.ColumnSetActive(4, scale == 3 || scale == -4);
      gridManager.ColumnSetActive(1, scale == -3);
      gridManager.ColumnSetActive(0, scale == -2);
    }
  }
}
