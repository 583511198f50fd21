/** Whose turn it is and which phase of the turn is running. */
module TurnCycle {
  datatype GameState = Player1Turn | Player2Turn

  datatype TurnState = TurnStart | PlayPhase | Advance | DrawCards | TurnEnd

  function Other(g: GameState): GameState {
    if g == Player1Turn then Player2Turn else Player1Turn
  }

  /** Where NextPhase moves the turn: the next phase, or the other player's TurnStart after TurnEnd. */
  function NextPhase(turn: GameState, phase: TurnState): (r: (GameState, TurnState))
    ensures phase != TurnEnd ==> r.0 == turn
    ensures phase == TurnEnd <==> r == (Other(turn), TurnStart)
  {
    match phase
    case TurnStart => (turn, PlayPhase)
    case PlayPhase => (turn, Advance)
    case Advance => (turn, DrawCards)
    case DrawCards => (turn, TurnEnd)
    case TurnEnd => (Other(turn), TurnStart)
  }

  /** The phase reached after n calls of NextPhase. */
  function Steps(turn: GameState, phase: TurnState, n: nat): (GameState, TurnState)
    decreases n
  {
    if n == 0 then (turn, phase)
    else var next := NextPhase(turn, phase); Steps(next.0, next.1, n - 1)
  }

  function Index(phase: TurnState): nat {
    match phase
    case TurnStart => 0
    case PlayPhase => 1
    case Advance => 2
    case DrawCards => 3
    case TurnEnd => 4
  }

  /** Within a turn the phases advance one by one in declaration order. */
  lemma {:induction false} PhasesInOrder(turn: GameState, n: nat)
    requires n < 5
    ensures Steps(turn, TurnStart, n).0 == turn
    ensures Index(Steps(turn, TurnStart, n).1) == n
  {
    if n > 0 {
      PhasesInOrder(turn, n - 1);
      StepsSplit(turn, TurnStart, n - 1, 1);
    }
  }

  lemma {:induction false} StepsSplit(turn: GameState, phase: TurnState, m: nat, n: nat)
    ensures Steps(turn, phase, m + n)
         == Steps(Steps(turn, phase, m).0, Steps(turn, phase, m).1, n)
    decreases m
  {
    if m > 0 {
      var next := NextPhase(turn, phase);
      StepsSplit(next.0, next.1, m - 1, n);
    }
  }

  /** Five calls from a player's TurnStart reach the other player's TurnStart. */
  lemma FiveStepsSwitchPlayer(turn: GameState)
    ensures Steps(turn, TurnStart, 5) == (Other(turn), TurnStart)
  {
  }

  /** The turn cycle has period ten: two full turns return to the same player and phase. */
  lemma {:induction false} TenStepsReturn(turn: GameState, phase: TurnState)
    ensures Steps(turn, phase, 10) == (turn, phase)
  {
    match phase
    case TurnStart => StepsSplit(turn, phase, 5, 5); FiveStepsSwitchPlayer(turn); FiveStepsSwitchPlayer(Other(turn));
    case PlayPhase => assert Steps(turn, phase, 10) == Steps(Other(Other(turn)), PlayPhase, 0);
    case Advance => assert Steps(turn, phase, 10) == Steps(Other(Other(turn)), Advance, 0);
    case DrawCards => assert Steps(turn, phase, 10) == Steps(Other(Other(turn)), DrawCards, 0);
    case TurnEnd => assert Steps(turn, phase, 10) == Steps(Other(Other(turn)), TurnEnd, 0);
  }
}
