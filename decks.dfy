/**
 * A deck is a dictionary from card to copy count. Card assets are equal iff they have the
 * same runtime type and the same Name (CardInfo.Equals). The model keys the dictionary by
 * Name alone, which agrees with the source while every card of a deck has one runtime type;
 * each entry keeps the asset that was inserted first. The order in which a dictionary is
 * enumerated is not specified by the runtime, so every operation that walks a deck takes
 * that order as a parameter.
 */
module Decks {
  import opened Wrappers
  import opened CardData

  datatype Entry = Entry(card: CardInfo, count: int)

  type Deck = map<string, Entry>

  /**
   * A deck with its name, as passed around in a `(Dictionary<CardInfo, int>, string)` pair;
   * either part may be null.
   */
  datatype DeckChoice = DeckChoice(deck: Option<Deck>, name: Option<string>)

  /** `default((Dictionary<CardInfo, int>, string))`: both parts null. */
  const NoDeck := DeckChoice(None, None)

  /** Every entry is filed under its own card's Name. */
  predicate WellKeyed(d: Deck) {
    forall n :: n in d ==> d[n].card.name == n
  }

  predicate PositiveCounts(d: Deck) {
    forall n :: n in d ==> d[n].count > 0
  }

  /** `order` enumerates the keys of `d`, each exactly once. */
  predicate IsOrder(d: Deck, order: seq<string>) {
    (forall i :: 0 <= i < |order| ==> order[i] in d)
    && (forall n :: n in d ==> n in order)
    && (forall i, j :: 0 <= i < j < |order| ==> order[i] != order[j])
  }

  ghost function Pick(d: Deck): string
    requires d != map[]
  {
    var n :| n in d; n
  }

  /** The sum of all counts. */
  ghost function Total(d: Deck): int
    decreases |d|
  {
    if d == map[] then 0 else d[Pick(d)].count + Total(d - {Pick(d)})
  }

  /** The sum does not depend on which key is taken out first. */
  lemma {:induction false} TotalRemove(d: Deck, n: string)
    requires n in d
    ensures Total(d) == d[n].count + Total(d - {n})
    decreases |d|
  {
    var p := Pick(d);
    if p != n {
      assert n in d - {p};
      TotalRemove(d - {p}, n);
      assert p in d - {n};
      TotalRemove(d - {n}, p);
      assert d - {p} - {n} == d - {n} - {p};
    }
  }

  lemma TotalUpdate(d: Deck, n: string, e: Entry)
    ensures Total(d[n := e]) == Total(d) - (if n in d then d[n].count else 0) + e.count
  {
    TotalRemove(d[n := e], n);
    assert d[n := e] - {n} == d - {n};
    if n in d {
      TotalRemove(d, n);
    } else {
      assert d - {n} == d;
    }
  }

  lemma TotalRemoveKey(d: Deck, n: string)
    ensures Total(d - {n}) == Total(d) - (if n in d then d[n].count else 0)
  {
    if n in d {
      TotalRemove(d, n);
    } else {
      assert d - {n} == d;
    }
  }

  /** `count` copies of a card; none when count is not positive. */
  function Repeat(c: CardInfo, count: int): (r: seq<CardInfo>)
    ensures |r| == if count <= 0 then 0 else count
    ensures forall i :: 0 <= i < |r| ==> r[i] == c
    decreases count
  {
    if count <= 0 then [] else [c] + Repeat(c, count - 1)
  }

  /** The deck laid out as a list: for each key in order, that many copies of its card. */
  function Expand(d: Deck, order: seq<string>): seq<CardInfo>
    requires forall i :: 0 <= i < |order| ==> order[i] in d
  {
    if order == [] then [] else Repeat(d[order[0]].card, d[order[0]].count) + Expand(d, order[1..])
  }

  /** Laying out two runs of keys lays out each in turn. */
  lemma {:induction false} ExpandConcat(d: Deck, a: seq<string>, b: seq<string>)
    requires forall i :: 0 <= i < |a| ==> a[i] in d
    requires forall i :: 0 <= i < |b| ==> b[i] in d
    ensures Expand(d, a + b) == Expand(d, a) + Expand(d, b)
  {
    if a == [] {
      assert a + b == b;
    } else {
      assert (a + b)[0] == a[0];
      assert (a + b)[1..] == a[1..] + b;
      ExpandConcat(d, a[1..], b);
    }
  }

  /** One more copy goes at the end. */
  lemma RepeatSnoc(c: CardInfo, n: int)
    requires n >= 0
    ensures Repeat(c, n + 1) == Repeat(c, n) + [c]
  {
    assert forall i :: 0 <= i < n + 1 ==> Repeat(c, n + 1)[i] == (Repeat(c, n) + [c])[i];
  }

  /** How many elements of a list carry the given Name. */
  function CountName(s: seq<CardInfo>, n: string): (r: nat)
    ensures r <= |s|
  {
    if s == [] then 0 else (if s[0].name == n then 1 else 0) + CountName(s[1..], n)
  }

  lemma {:induction false} CountNameAppend(a: seq<CardInfo>, b: seq<CardInfo>, n: string)
    ensures CountName(a + b, n) == CountName(a, n) + CountName(b, n)
  {
    if a != [] {
      assert (a + b)[0] == a[0];
      assert (a + b)[1..] == a[1..] + b;
      CountNameAppend(a[1..], b, n);
    } else {
      assert a + b == b;
    }
  }

  lemma {:induction false} CountNameRepeat(c: CardInfo, count: int, n: string)
    ensures CountName(Repeat(c, count), n) == if c.name == n && count > 0 then count else 0
    decreases count
  {
    if count > 0 {
      CountNameRepeat(c, count - 1, n);
    }
  }

  /**
   * Laying out a deck with non-negative counts gives exactly `count` copies of each card
   * and nothing else.
   */
  lemma {:induction false} ExpandCounts(d: Deck, order: seq<string>, n: string)
    requires WellKeyed(d) && forall m :: m in d ==> d[m].count >= 0
    requires forall i :: 0 <= i < |order| ==> order[i] in d
    requires forall i, j :: 0 <= i < j < |order| ==> order[i] != order[j]
    ensures CountName(Expand(d, order), n) == if n in order then d[n].count else 0
  {
    if order != [] {
      var k := order[0];
      CountNameAppend(Repeat(d[k].card, d[k].count), Expand(d, order[1..]), n);
      CountNameRepeat(d[k].card, d[k].count, n);
      ExpandCounts(d, order[1..], n);
      assert forall m :: m in order <==> m == k || m in order[1..];
      assert k !in order[1..] by {
        forall j | 0 <= j < |order[1..]| ensures order[1..][j] != k {
          assert order[1..][j] == order[j + 1];
        }
      }
    }
  }

  /** The layout has one element per counted copy. */
  lemma {:induction false} ExpandLength(d: Deck, order: seq<string>)
    requires IsOrder(d, order) && forall m :: m in d ==> d[m].count >= 0
    ensures |Expand(d, order)| == Total(d)
  {
    ExpandLengthSub(d, order, d.Keys);
    assert Restrict(d, d.Keys) == d;
  }

  function Restrict(d: Deck, keys: set<string>): Deck {
    map n | n in d && n in keys :: d[n]
  }

  lemma {:induction false} ExpandLengthSub(d: Deck, order: seq<string>, keys: set<string>)
    requires forall m :: m in d ==> d[m].count >= 0
    requires forall i :: 0 <= i < |order| ==> order[i] in d
    requires forall i, j :: 0 <= i < j < |order| ==> order[i] != order[j]
    requires forall n :: n in keys ==> n in d
    requires forall n :: n in keys <==> n in order
    ensures |Expand(d, order)| == Total(Restrict(d, keys))
  {
    if order == [] {
      assert Restrict(d, keys) == map[];
    } else {
      var k := order[0];
      var rest := keys - {k};
      assert forall n :: n in rest <==> n in order[1..] by {
        forall n ensures n in rest <==> n in order[1..] {
          if n in order[1..] {
            var j :| 0 <= j < |order[1..]| && order[1..][j] == n;
            assert order[j + 1] == n;
          }
        }
      }
      ExpandLengthSub(d, order[1..], rest);
      TotalRemove(Restrict(d, keys), k);
      assert Restrict(d, keys) - {k} == Restrict(d, rest);
    }
  }

  /** Copies of the same card are adjacent in the layout. */
  lemma {:induction false} ExpandContiguous(d: Deck, order: seq<string>, i: int, j: int, k: int)
    requires WellKeyed(d) && IsOrder(d, order)
    requires 0 <= i < j < k < |Expand(d, order)|
    requires Expand(d, order)[i].name == Expand(d, order)[k].name
    ensures Expand(d, order)[j].name == Expand(d, order)[i].name
  {
    var n := order[0];
    var head := Repeat(d[n].card, d[n].count);
    var tail := Expand(d, order[1..]);
    assert Expand(d, order) == head + tail;
    if k < |head| {
      // all three are copies of the first card
    } else if i >= |head| {
      assert IsOrder(d - {n}, order[1..]) by {
        forall a, b | 0 <= a < b < |order[1..]| ensures order[1..][a] != order[1..][b] {
          assert order[1..][a] == order[a + 1] && order[1..][b] == order[b + 1];
        }
        forall m | m in d - {n} ensures m in order[1..] {
          var t :| 0 <= t < |order| && order[t] == m;
          assert t != 0;
          assert order[1..][t - 1] == m;
        }
        forall a | 0 <= a < |order[1..]| ensures order[1..][a] in d - {n} {
          assert order[1..][a] == order[a + 1];
        }
      }
      ExpandSubDeck(d, n, order[1..]);
      ExpandContiguous(d - {n}, order[1..], i - |head|, j - |head|, k - |head|);
    } else {
      // i lies in the first block and k in the rest, whose cards all have other Names
      assert Expand(d, order)[i].name == n;
      ExpandNames(d, order[1..], k - |head|);
      assert false;
    }
  }

  lemma {:induction false} ExpandSubDeck(d: Deck, n: string, order: seq<string>)
    requires forall i :: 0 <= i < |order| ==> order[i] in d - {n}
    ensures Expand(d - {n}, order) == Expand(d, order)
  {
    if order != [] {
      ExpandSubDeck(d, n, order[1..]);
    }
  }

  /** Every element of the layout is the card of a key in the order. */
  lemma {:induction false} ExpandNames(d: Deck, order: seq<string>, k: int)
    requires WellKeyed(d) && forall i :: 0 <= i < |order| ==> order[i] in d
    requires 0 <= k < |Expand(d, order)|
    ensures exists t :: 0 <= t < |order| && order[t] == Expand(d, order)[k].name
    ensures Expand(d, order)[k] == d[Expand(d, order)[k].name].card
  {
    var head := Repeat(d[order[0]].card, d[order[0]].count);
    if k >= |head| {
      ExpandNames(d, order[1..], k - |head|);
      var t :| 0 <= t < |order[1..]| && order[1..][t] == Expand(d, order[1..])[k - |head|].name;
      assert order[t + 1] == order[1..][t];
    } else {
      assert order[0] == Expand(d, order)[k].name;
    }
  }

  /** LoadDeckFromFile's step: increment a known card, or add a new one with count 1. */
  function Insert(d: Deck, c: CardInfo): Deck {
    if c.name in d then d[c.name := d[c.name].(count := d[c.name].count + 1)]
    else d[c.name := Entry(c, 1)]
  }

  /** A list folded into a deck, front to back. */
  function Collapse(s: seq<CardInfo>): Deck {
    if s == [] then map[] else Insert(Collapse(s[..|s| - 1]), s[|s| - 1])
  }

  /**
   * Collapsing counts each Name's occurrences, and keeps under each Name the first card
   * with that Name.
   */
  lemma {:induction false} CollapseCounts(s: seq<CardInfo>, n: string)
    ensures n in Collapse(s) <==> CountName(s, n) > 0
    ensures n in Collapse(s) ==> Collapse(s)[n].count == CountName(s, n)
    ensures n in Collapse(s) ==> Collapse(s)[n].card in s && Collapse(s)[n].card.name == n
  {
    if s != [] {
      var init := s[..|s| - 1];
      CollapseCounts(init, n);
      assert s == init + [s[|s| - 1]];
      CountNameAppend(init, [s[|s| - 1]], n);
      assert CountName([s[|s| - 1]], n) == if s[|s| - 1].name == n then 1 else 0;
    }
  }

  lemma {:induction false} CollapseWellKeyed(s: seq<CardInfo>)
    ensures WellKeyed(Collapse(s)) && PositiveCounts(Collapse(s))
  {
    forall n | n in Collapse(s) ensures Collapse(s)[n].card.name == n && Collapse(s)[n].count > 0 {
      CollapseCounts(s, n);
    }
  }

  /** When every element named n is the same card c, collapsing files c under n. */
  lemma {:induction false} CollapseUniformCard(s: seq<CardInfo>, n: string, c: CardInfo)
    requires forall i :: 0 <= i < |s| && s[i].name == n ==> s[i] == c
    requires n in Collapse(s)
    ensures Collapse(s)[n].card == c
  {
    CollapseCounts(s, n);
  }

  /** Round trip: collapsing the layout of a deck with positive counts gives the deck back. */
  lemma CollapseExpand(d: Deck, order: seq<string>)
    requires WellKeyed(d) && PositiveCounts(d) && IsOrder(d, order)
    ensures Collapse(Expand(d, order)) == d
  {
    var s := Expand(d, order);
    var c := Collapse(s);
    forall n ensures n in c <==> n in d {
      CollapseCounts(s, n);
      ExpandCounts(d, order, n);
    }
    forall n | n in d ensures c[n] == d[n] {
      CollapseCounts(s, n);
      ExpandCounts(d, order, n);
      forall i | 0 <= i < |s| && s[i].name == n ensures s[i] == d[n].card {
        ExpandNames(d, order, i);
      }
      CollapseUniformCard(s, n, d[n].card);
    }
  }

  /** Queue<CardInfo>: a first-in first-out reference object. */
  class CardQueue {
    var items: seq<CardInfo>

    constructor()
      ensures items == []
    {
      items := [];
    }

    function Count(): (r: int)
      reads this
      ensures r == |items|
    {
      |items|
    }

    method Enqueue(c: CardInfo)
      modifies this
      ensures items == old(items) + [c]
    {
      items := items + [c];
    }

    /** Dequeue on an empty queue throws, so callers check Count first. */
    method Dequeue() returns (c: CardInfo)
      requires items != []
      modifies this
      ensures c == old(items)[0] && items == old(items)[1..]
    {
      c := items[0];
      items := items[1..];
    }

    method Clear()
      modifies this
      ensures items == []
    {
      items := [];
    }
  }
}
