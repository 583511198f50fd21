/**
 * Health and energy of a unit, and the stat methods of a card on the board (TakeDamage,
 * Heal, LowerEnergy, SetExhausted, RefreshCard, InitializeVariables). The card object
 * and the value-level board both use these definitions.
 */
module UnitStats {
  import opened CardData

  datatype Vitals = Vitals(health: int, maxHealth: int, energy: int, maxEnergy: int, exhausted: bool)

  /** Mathf.Clamp as Unity writes it: the lower bound is compared first. */
  function Clamp(value: int, min: int, max: int): (r: int)
    ensures min <= max ==> min <= r <= max
    ensures min <= value <= max ==> r == value
    ensures value < min ==> r == min
  {
    if value < min then min else if value > max then max else value
  }

  /** Health after TakeDamage(amount, _): lowered by exactly the amount. */
  function TakeDamage(v: Vitals, amount: int): Vitals {
    v.(health := v.health - amount)
  }

  /** TakeDamage triggers death iff the lowered health is at most 0 or the hit has DeathTouch. */
  predicate Dies(v: Vitals, amount: int, deathTouch: bool) {
    TakeDamage(v, amount).health <= 0 || deathTouch
  }

  function Heal(v: Vitals, amount: int): (r: Vitals)
    ensures 0 <= v.maxHealth ==> 0 <= r.health <= v.maxHealth
    ensures 0 <= v.health + amount <= v.maxHealth ==> r.health == v.health + amount
    ensures r == v.(health := r.health)
  {
    v.(health := Clamp(v.health + amount, 0, v.maxHealth))
  }

  function SetExhausted(v: Vitals, isExhausted: bool): (r: Vitals)
    ensures r.exhausted == isExhausted
    ensures r.energy == if isExhausted then 0 else v.maxEnergy
    ensures r.health == v.health && r.maxHealth == v.maxHealth && r.maxEnergy == v.maxEnergy
  {
    if isExhausted then v.(exhausted := true, energy := 0) else v.(exhausted := false, energy := v.maxEnergy)
  }

  function LowerEnergy(v: Vitals, amount: int): (r: Vitals)
    ensures r.energy == if v.energy - amount <= 0 then 0 else v.energy - amount
    ensures r.exhausted == (v.exhausted || v.energy - amount <= 0)
    ensures r.energy >= 0
    ensures r.health == v.health && r.maxHealth == v.maxHealth && r.maxEnergy == v.maxEnergy
  {
    var lowered := v.(energy := v.energy - amount);
    if lowered.energy <= 0 then SetExhausted(lowered, true) else lowered
  }

  /** RefreshCard: on the owner's turn, energy back to full and no longer exhausted. */
  function Refresh(v: Vitals, ownersTurn: bool): (r: Vitals)
    ensures ownersTurn ==> !r.exhausted && r.energy == v.maxEnergy
    ensures !ownersTurn ==> r == v
    ensures r.health == v.health && r.maxHealth == v.maxHealth && r.maxEnergy == v.maxEnergy
  {
    if ownersTurn then SetExhausted(v.(energy := v.maxEnergy), false) else v
  }

  /** InitializeVariables: both the current and the maximum values come from the asset. */
  function Initialized(v: Vitals, info: CardInfo): (r: Vitals)
    ensures r.health == r.maxHealth == info.health
    ensures r.energy == r.maxEnergy == info.energy
    ensures r.exhausted == v.exhausted
  {
    v.(health := info.health, maxHealth := info.health, energy := info.energy, maxEnergy := info.energy)
  }

  /** An exhausted unit has no energy left. */
  predicate ExhaustionConsistent(v: Vitals) {
    v.exhausted ==> v.energy == 0
  }

  /**
   * Every stat operation keeps an exhausted unit at zero energy, as long as the energy
   * spent is not negative.
   */
  lemma ExhaustionPreserved(v: Vitals, amount: int, b: bool, info: CardInfo)
    requires ExhaustionConsistent(v) && 0 <= amount
    ensures ExhaustionConsistent(TakeDamage(v, amount))
    ensures ExhaustionConsistent(Heal(v, amount))
    ensures ExhaustionConsistent(LowerEnergy(v, amount))
    ensures ExhaustionConsistent(SetExhausted(v, b))
    ensures ExhaustionConsistent(Refresh(v, b))
    ensures ExhaustionConsistent(Initialized(v, info)) || v.exhausted
  {
  }

  /** A hit of exactly the remaining health kills; a smaller hit without DeathTouch does not. */
  lemma LethalThreshold(v: Vitals, amount: int, deathTouch: bool)
    ensures Dies(v, amount, deathTouch) <==> (v.health <= amount || deathTouch)
  {
  }

  /** Healing twice by non-negative amounts is healing once by their sum (on a non-negative maximum). */
  lemma HealAdds(v: Vitals, a: int, b: int)
    requires 0 <= a && 0 <= b && 0 <= v.health && 0 <= v.maxHealth
    ensures Heal(Heal(v, a), b) == Heal(v, a + b)
  {
  }
}
