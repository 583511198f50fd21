/**
 * Card and action assets. An asset is held by value; its property setters are the
 * datatype's field updates, which change exactly the named field.
 */
module CardData {
  /** Action keywords, in the declaration order of the enum (Damage = 1 .. Overkill = 12). */
  datatype Keyword =
    | Damage | Heal | Cleave | Burst | Nova | Drain | DrawCard
    | Momentum | Provoke | Combo | DeathTouch | Overkill

  datatype ActionRange = Melee | Ranged | Reach | Global

  /** Which tiles an action may target; the source keeps these as a list of three bools. */
  datatype ValidTargets = ValidTargets(enemies: bool, allies: bool, self: bool)

  datatype ActionInfo = ActionInfo(
    cost: int,
    name: string,
    description: string,
    keywords: seq<Keyword>,
    range: ActionRange,
    validTargets: ValidTargets)

  predicate HasKeyword(a: ActionInfo, k: Keyword) {
    k in a.keywords
  }

  /**
   * A card asset. Tribes are CardTribe values, kept as their ordinals since that enum is
   * not part of this model; the sprite and the animator controller are left out.
   */
  datatype CardInfo = CardInfo(
    name: string,
    health: int,
    power: int,
    energy: int,
    cost: int,
    keywords: seq<string>,
    actions: seq<ActionInfo>,
    tribes: seq<nat>)

  /**
   * An object handed to Equals: null, a card asset of some runtime type, or an object
   * of an unrelated type.
   */
  datatype Object = Null | Asset(runtimeType: string, info: CardInfo) | Foreign(foreignType: string)

  /** CardInfo.Equals: same runtime type and the same Name. */
  predicate Equals(self: Object, obj: Object)
    requires self.Asset?
  {
    obj.Asset? && obj.runtimeType == self.runtimeType && obj.info.name == self.info.name
  }

  const Int32Modulus: int := 0x1_0000_0000

  /** Two's-complement wrap-around of an unchecked 32-bit int expression. */
  function Wrap32(v: int): (r: int)
    ensures -0x8000_0000 <= r < 0x8000_0000
    ensures (v - r) % Int32Modulus == 0
  {
    (v + 0x8000_0000) % Int32Modulus - 0x8000_0000
  }

  /**
   * CardInfo.GetHashCode: 17 * 23 + Name.GetHashCode(), unchecked. The string hash of the
   * runtime is a parameter.
   */
  function GetHashCode(ci: CardInfo, stringHash: string -> int): int {
    Wrap32(17 * 23 + stringHash(ci.name))
  }

  lemma EqualsReflexive(a: Object)
    requires a.Asset?
    ensures Equals(a, a)
  {
  }

  lemma EqualsSymmetric(a: Object, b: Object)
    requires a.Asset? && b.Asset?
    ensures Equals(a, b) <==> Equals(b, a)
  {
  }

  lemma EqualsTransitive(a: Object, b: Object, c: Object)
    requires a.Asset? && b.Asset? && Equals(a, b) && Equals(b, c)
    ensures Equals(a, c)
  {
  }

  /** Null and objects of unrelated types never equal a card. */
  lemma EqualsRejectsOthers(a: Object, t: string)
    requires a.Asset?
    ensures !Equals(a, Null) && !Equals(a, Foreign(t))
  {
  }

  /** The hash depends only on Name, so equal cards hash equally. */
  lemma EqualCardsHashEqually(a: Object, b: Object, stringHash: string -> int)
    requires a.Asset? && Equals(a, b)
    ensures GetHashCode(a.info, stringHash) == GetHashCode(b.info, stringHash)
  {
  }
}
