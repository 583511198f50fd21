/**
 * The list formatters used for log output. The line terminator AppendLine writes
 * (Environment.NewLine) is a parameter, and so is each item's ToString text in the
 * generic overload. The warning logged for a card without a name is not modelled.
 */
module DebugTools {
  import opened Wrappers
  import opened Geometry

  /** The items separated by `sep`: the reference definition of the list layout. */
  function Joined(parts: seq<string>, sep: string): string {
    if |parts| == 0 then ""
    else if |parts| == 1 then parts[0]
    else Joined(parts[..|parts| - 1], sep) + sep + parts[|parts| - 1]
  }

  /** A list as the formatters print it: a line break, then the items in brackets. */
  function ListText(newline: string, parts: seq<string>): string {
    newline + "[" + Joined(parts, ", " + newline) + "]"
  }

  /** What the loop has appended after k items: each item, and a separator after all but the last. */
  function Pieces(parts: seq<string>, sep: string, k: int): string
    requires 0 <= k <= |parts|
  {
    if k == 0 then ""
    else Pieces(parts, sep, k - 1) + parts[k - 1] + (if k - 1 < |parts| - 1 then sep else "")
  }

  lemma {:induction false} PiecesJoined(parts: seq<string>, sep: string, k: int)
    requires 1 <= k <= |parts|
    ensures Pieces(parts, sep, k) == Joined(parts[..k], sep) + (if k < |parts| then sep else "")
  {
    if k == 1 {
      assert parts[..1] == [parts[0]];
    } else {
      PiecesJoined(parts, sep, k - 1);
      assert parts[..k][..k - 1] == parts[..k - 1];
    }
  }

  /**
   * ListToString<T>: a line break and "[", then each item's text, with ", " and a line
   * break between items, then "]".
   */
  method ListToString(newline: string, items: seq<string>) returns (s: string)
    ensures s == ListText(newline, items)
  {
    var sb := newline + "[";
    var i := 0;
    while i < |items|
      invariant 0 <= i <= |items|
      invariant sb == newline + "[" + Pieces(items, ", " + newline, i)
    {
      sb := sb + items[i];
      if i < |items| - 1 {
        sb := sb + ", " + newline;
      }
      i := i + 1;
    }
    if |items| > 0 {
      PiecesJoined(items, ", " + newline, |items|);
      assert items[..|items|] == items;
    }
    s := sb + "]";
  }

  /** An empty list prints as a line break followed by "[]". */
  lemma EmptyList(newline: string)
    ensures ListText(newline, []) == newline + "[]"
  {
  }

  /** A single item prints without any separator. */
  lemma SingleItem(newline: string, item: string)
    ensures ListText(newline, [item]) == newline + "[" + item + "]"
  {
  }

  /** Each further item adds a separator and the item before the closing bracket. */
  lemma {:induction false} NextItem(newline: string, parts: seq<string>, item: string)
    requires |parts| > 0
    ensures ListText(newline, parts + [item])
      == newline + "[" + Joined(parts, ", " + newline) + ", " + newline + item + "]"
  {
    assert (parts + [item])[..|parts|] == parts;
  }

  /** The decimal digits of a natural number. */
  function NatText(n: nat): (r: string)
    ensures |r| > 0 && forall i :: 0 <= i < |r| ==> '0' <= r[i] <= '9'
  {
    if n < 10 then [(n as char) + '0'] else NatText(n / 10) + [((n % 10) as char) + '0']
  }

  /** An int as ToString prints it, with a leading '-' when negative. */
  function IntText(n: int): (r: string)
    ensures |r| > 0 && (r[0] == '-' <==> n < 0)
    ensures forall i :: 0 < i < |r| ==> '0' <= r[i] <= '9'
  {
    if n >= 0 then NatText(n) else "-" + NatText(-n)
  }

  /** Vector2Int.ToString: "(x, y)". */
  function PosText(p: Pos): string {
    "(" + IntText(p.x) + ", " + IntText(p.y) + ")"
  }

  /** A simulated unit: its name (possibly null) and the tile it stands on, if any. */
  datatype UnitCardData = UnitCardData(name: Option<string>, currentTile: Option<Pos>)

  /** A simulated card: a unit, or a spell with just a name. */
  datatype CardData = UnitCard(unit: UnitCardData) | SpellCard(name: Option<string>)

  /** StringBuilder.Append of a string that may be null: null appends nothing. */
  function NameText(name: Option<string>): string {
    if name.Some? then name.value else ""
  }

  /** An item of the CardData overload: the name, then the position of a placed unit with no separator. */
  function CardDataText(c: CardData): (r: string)
    ensures c.UnitCard? && c.unit.currentTile.Some? ==>
      r == NameText(c.unit.name) + PosText(c.unit.currentTile.value)
    ensures !(c.UnitCard? && c.unit.currentTile.Some?) ==>
      r == NameText(if c.UnitCard? then c.unit.name else c.name)
  {
    match c
    case UnitCard(u) => NameText(u.name) + (if u.currentTile.Some? then PosText(u.currentTile.value) else "")
    case SpellCard(name) => NameText(name)
  }

  /** An item of the UnitCardData overload: the name, then ": " and the position when placed. */
  function UnitText(u: UnitCardData): (r: string)
    ensures u.currentTile.Some? ==> r == NameText(u.name) + ": " + PosText(u.currentTile.value)
    ensures u.currentTile.None? ==> r == NameText(u.name)
  {
    NameText(u.name) + (if u.currentTile.Some? then ": " + PosText(u.currentTile.value) else "")
  }

  /** The two overloads print a placed unit differently: only the unit one puts ": " first. */
  lemma PlacedUnitTexts(u: UnitCardData)
    requires u.currentTile.Some?
    ensures UnitText(u) == NameText(u.name) + ": " + PosText(u.currentTile.value)
    ensures CardDataText(UnitCard(u)) == NameText(u.name) + PosText(u.currentTile.value)
    ensures UnitText(u) != CardDataText(UnitCard(u))
  {
    var name := NameText(u.name);
    var pos := PosText(u.currentTile.value);
    assert (name + ": " + pos)[|name|] == ':';
    assert (name + pos)[|name|] == '(';
  }

  /** ListToString(List<CardData>). */
  method ListToStringCards(newline: string, list: seq<CardData>) returns (s: string)
    ensures s == ListText(newline, seq(|list|, i requires 0 <= i < |list| => CardDataText(list[i])))
  {
    s := ListToString(newline, seq(|list|, i requires 0 <= i < |list| => CardDataText(list[i])));
  }

  /** ListToString(List<UnitCardData>). */
  method ListToStringUnits(newline: string, list: seq<UnitCardData>) returns (s: string)
    ensures s == ListText(newline, seq(|list|, i requires 0 <= i < |list| => UnitText(list[i])))
  {
    s := ListToString(newline, seq(|list|, i requires 0 <= i < |list| => UnitText(list[i])));
  }

  /** A game action (possibly null) with the text its ToString returns. */
  datatype GameAction =
    | NullAction
    | PlayUnitCardAction(text: string)
    | PlaySpellCardAction(text: string)
    | OtherAction(text: string)

  /**
   * What ActionToString prints, case by case: a spell play or any other action once, a
   * unit play twice, and null as nothing.
   */
  function ActionText(a: GameAction): string {
    match a
    case NullAction => ""
    case PlayUnitCardAction(t) => t + t
    case PlaySpellCardAction(t) => t
    case OtherAction(t) => t
  }

  /**
   * ActionToString: the unit check appends the text, and then the spell check's `else`
   * branch appends the action again for everything that is not a spell play.
   */
  method ActionToString(action: GameAction) returns (s: string)
    ensures s == ActionText(action)
  {
    var sb := "";
    if action.PlayUnitCardAction? {
      sb := sb + action.text;
    }
    if action.PlaySpellCardAction? {
      sb := sb + action.text;
    } else {
      sb := sb + (if action.NullAction? then "" else action.text);
    }
    s := sb;
  }

  /** ListToString(List<IGameAction>). */
  method ListToStringActions(newline: string, list: seq<GameAction>) returns (s: string)
    ensures s == ListText(newline, seq(|list|, i requires 0 <= i < |list| => ActionText(list[i])))
  {
    var texts: seq<string> := [];
    var k := 0;
    while k < |list|
      invariant 0 <= k <= |list|
      invariant |texts| == k && forall i :: 0 <= i < k ==> texts[i] == ActionText(list[i])
    {
      var t := ActionToString(list[k]);
      texts := texts + [t];
      k := k + 1;
    }
    assert texts == seq(|list|, i requires 0 <= i < |list| => ActionText(list[i]));
    s := ListToString(newline, texts);
  }
}
