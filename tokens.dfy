/**
 * The serialisable mirrors of action and card assets. A token is a struct: a value whose
 * constructor copies the asset's fields. The sprite and the animator controller name are
 * left out, since those go through Unity resources.
 */
module Tokens {
  import opened CardData

  /** ActionInfoToken: the fields of an action asset, minus its sprite. */
  datatype ActionInfoToken = ActionInfoToken(
    cost: int,
    name: string,
    description: string,
    keywords: seq<Keyword>,
    range: ActionRange,
    validTargets: ValidTargets)

  /**
   * An action asset as a reference object, which CopyToActionInfo writes field by field.
   * A fresh instance has the serialised defaults: no keywords and three false targets.
   */
  class ActionAsset {
    var cost: int
    var name: string
    var description: string
    var keywords: seq<Keyword>
    var range: ActionRange
    var validTargets: ValidTargets

    /** ScriptableObject.CreateInstance<ActionInfo>(); null strings are taken as empty. */
    constructor()
      ensures Info() == ActionInfo(0, "", "", [], Melee, ValidTargets(false, false, false))
    {
      cost := 0;
      name := "";
      description := "";
      keywords := [];
      range := Melee;
      validTargets := ValidTargets(false, false, false);
    }

    /** The asset's current field values. */
    function Info(): (r: ActionInfo)
      reads this
      ensures r.cost == cost && r.name == name && r.description == description
      ensures r.keywords == keywords && r.range == range && r.validTargets == validTargets
    {
      ActionInfo(cost, name, description, keywords, range, validTargets)
    }

    /** Overwrites every field of this asset from the token, whatever it held before. */
    method CopyToActionInfo(t: ActionInfoToken)
      modifies this
      ensures Info() == ActionOf(t)
    {
      cost := t.cost;
      name := t.name;
      description := t.description;
      keywords := t.keywords;
      range := t.range;
      validTargets := t.validTargets;
    }
  }

  /** The ActionInfoToken constructor: reads the action and copies each field. */
  function TokenOfAction(a: ActionInfo): (t: ActionInfoToken)
    ensures t.cost == a.cost && t.name == a.name && t.description == a.description
    ensures t.keywords == a.keywords && t.range == a.range && t.validTargets == a.validTargets
  {
    ActionInfoToken(a.cost, a.name, a.description, a.keywords, a.range, a.validTargets)
  }

  /** The action CopyToActionInfo leaves behind. */
  function ActionOf(t: ActionInfoToken): (a: ActionInfo)
    ensures a.cost == t.cost && a.name == t.name && a.description == t.description
    ensures a.keywords == t.keywords && a.range == t.range && a.validTargets == t.validTargets
  {
    ActionInfo(t.cost, t.name, t.description, t.keywords, t.range, t.validTargets)
  }

  /** Copying a token back into an asset restores the action it was made from. */
  lemma ActionRoundTrip(a: ActionInfo)
    ensures ActionOf(TokenOfAction(a)) == a
  {
  }

  /** And a token made from the copied action is the token again. */
  lemma ActionTokenRoundTrip(t: ActionInfoToken)
    ensures TokenOfAction(ActionOf(t)) == t
  {
  }

  /** CardInfoToken: the card's fields with its actions as tokens; tribes are not kept. */
  datatype CardInfoToken = CardInfoToken(
    name: string,
    health: int,
    power: int,
    energy: int,
    cost: int,
    keywords: seq<string>,
    actions: seq<ActionInfoToken>)

  /** ConvertActionsToTokens: one token per action, in order. */
  method ConvertActionsToTokens(actions: seq<ActionInfo>) returns (tokens: seq<ActionInfoToken>)
    ensures |tokens| == |actions|
    ensures forall i :: 0 <= i < |actions| ==> tokens[i] == TokenOfAction(actions[i])
  {
    tokens := [];
    var k := 0;
    while k < |actions|
      invariant 0 <= k <= |actions|
      invariant |tokens| == k
      invariant forall i :: 0 <= i < k ==> tokens[i] == TokenOfAction(actions[i])
    {
      tokens := tokens + [TokenOfAction(actions[k])];
      k := k + 1;
    }
  }

  /** ConvertTokensToActions: a fresh asset per token, filled by CopyToActionInfo. */
  method ConvertTokensToActions(tokens: seq<ActionInfoToken>) returns (actions: seq<ActionInfo>)
    ensures |actions| == |tokens|
    ensures forall i :: 0 <= i < |tokens| ==> actions[i] == ActionOf(tokens[i])
  {
    actions := [];
    var k := 0;
    while k < |tokens|
      invariant 0 <= k <= |tokens|
      invariant |actions| == k
      invariant forall i :: 0 <= i < k ==> actions[i] == ActionOf(tokens[i])
    {
      var actionInfo := new ActionAsset();
      actionInfo.CopyToActionInfo(tokens[k]);
      actions := actions + [actionInfo.Info()];
      k := k + 1;
    }
  }

  function TokensOfActions(actions: seq<ActionInfo>): (r: seq<ActionInfoToken>)
    ensures |r| == |actions| && forall i :: 0 <= i < |actions| ==> r[i] == TokenOfAction(actions[i])
  {
    seq(|actions|, i requires 0 <= i < |actions| => TokenOfAction(actions[i]))
  }

  function ActionsOfTokens(tokens: seq<ActionInfoToken>): (r: seq<ActionInfo>)
    ensures |r| == |tokens| && forall i :: 0 <= i < |tokens| ==> r[i] == ActionOf(tokens[i])
  {
    seq(|tokens|, i requires 0 <= i < |tokens| => ActionOf(tokens[i]))
  }

  /** The CardInfoToken constructor, with its actions converted. */
  function TokenOf(c: CardInfo): (t: CardInfoToken)
    ensures t.name == c.name && t.health == c.health && t.power == c.power
    ensures t.energy == c.energy && t.cost == c.cost && t.keywords == c.keywords
    ensures t.actions == TokensOfActions(c.actions)
  {
    CardInfoToken(c.name, c.health, c.power, c.energy, c.cost, c.keywords, TokensOfActions(c.actions))
  }

  /** ToCardInfo: a fresh card asset from the token; its tribe list is left unset. */
  function CardOf(t: CardInfoToken): (c: CardInfo)
    ensures c.name == t.name && c.health == t.health && c.power == t.power
    ensures c.energy == t.energy && c.cost == t.cost && c.keywords == t.keywords
    ensures c.actions == ActionsOfTokens(t.actions) && c.tribes == []
  {
    CardInfo(t.name, t.health, t.power, t.energy, t.cost, t.keywords, ActionsOfTokens(t.actions), [])
  }

  /** The constructor as the source runs it: field copies and the conversion loop. */
  method NewCardInfoToken(c: CardInfo) returns (t: CardInfoToken)
    ensures t == TokenOf(c)
  {
    var actions := ConvertActionsToTokens(c.actions);
    t := CardInfoToken(c.name, c.health, c.power, c.energy, c.cost, c.keywords, actions);
  }

  method ToCardInfo(t: CardInfoToken) returns (c: CardInfo)
    ensures c == CardOf(t)
  {
    var actions := ConvertTokensToActions(t.actions);
    c := CardInfo(t.name, t.health, t.power, t.energy, t.cost, t.keywords, actions, []);
  }

  /**
   * A card read back from its token keeps every field and its actions (count, order and
   * contents) but loses its tribes.
   */
  lemma {:induction false} CardRoundTrip(c: CardInfo)
    ensures CardOf(TokenOf(c)) == c.(tribes := [])
  {
    var back := ActionsOfTokens(TokensOfActions(c.actions));
    forall i | 0 <= i < |c.actions| ensures back[i] == c.actions[i] {
      ActionRoundTrip(c.actions[i]);
    }
  }

  /** Tokens survive the trip through a card unchanged. */
  lemma {:induction false} TokenRoundTrip(t: CardInfoToken)
    ensures TokenOf(CardOf(t)) == t
  {
    var back := TokensOfActions(ActionsOfTokens(t.actions));
    forall i | 0 <= i < |t.actions| ensures back[i] == t.actions[i] {
      ActionTokenRoundTrip(t.actions[i]);
    }
  }

  /** An object handed to a token's Equals: null, a boxed card token, or something else. */
  datatype Boxed = BoxedNull | BoxedToken(token: CardInfoToken) | BoxedOther(typeName: string)

  /** CardInfoToken.Equals: a non-null token of the same type with the same Name. */
  predicate TokenEquals(self: CardInfoToken, obj: Boxed) {
    obj.BoxedToken? && obj.token.name == self.name
  }

  /** CardInfoToken.GetHashCode, unchecked; the runtime's string hash is a parameter. */
  function TokenHash(t: CardInfoToken, stringHash: string -> int): (h: int)
    ensures -0x8000_0000 <= h < 0x8000_0000
    ensures (17 * 23 + stringHash(t.name) - h) % Int32Modulus == 0
  {
    Wrap32(17 * 23 + stringHash(t.name))
  }

  /** Two tokens are Equal exactly when their Names are equal. */
  lemma TokenEqualsByName(a: CardInfoToken, b: CardInfoToken)
    ensures TokenEquals(a, BoxedToken(b)) <==> a.name == b.name
    ensures TokenEquals(a, BoxedToken(b)) <==> TokenEquals(b, BoxedToken(a))
  {
  }

  lemma TokenEqualsRejects(a: CardInfoToken, typeName: string)
    ensures !TokenEquals(a, BoxedNull) && !TokenEquals(a, BoxedOther(typeName))
  {
  }

  /** Equal tokens hash equally, for any string hash. */
  lemma EqualTokensHashEqually(a: CardInfoToken, b: CardInfoToken, stringHash: string -> int)
    requires TokenEquals(a, BoxedToken(b))
    ensures TokenHash(a, stringHash) == TokenHash(b, stringHash)
  {
  }
}
