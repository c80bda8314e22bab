/** vItem.cpp: a consumable in one maze square.  The maze keeps its items in
    a C++ array of vItem values (`vItem * items`), so an item is a value here
    and the maze changes one by writing the array element.  The sprite part
    of vItem is used only for drawing (its update does nothing), so only the
    item's own fields are modelled: its kind, its square and whether it was
    eaten. */
module Items {

  /** itemType of vItem.h: the small and large dots, then six fruits. */
  type ItemType = t: int | 0 <= t <= 8
  const ItSmallDot: ItemType := 0
  const ItLargeDot: ItemType := 1
  const ItBanana: ItemType := 2
  const ItCherries: ItemType := 8

  /** What getPointValue returns for an uneaten item of kind `t`: ten points
      per item level. */
  function Points(t: ItemType): (p: int)
    ensures 10 <= p <= 90 && p % 10 == 0
    ensures forall u: ItemType :: u < t ==> Points(u) < p
  {
    10 * (t + 1)
  }

  datatype Item = Item(kind: ItemType, xSquare: int, ySquare: int, isConsumed: bool)
  {
    /** An eaten item is parked at the unseen square (-1, -1). */
    ghost predicate Valid() {
      isConsumed ==> xSquare == -1 && ySquare == -1
    }

    /** getPointValue: nothing once eaten. */
    function PointValue(): (p: int)
      ensures isConsumed ==> p == 0
      ensures !isConsumed ==> p == Points(kind)
      ensures 0 <= p <= 90
    {
      if isConsumed then 0 else Points(kind)
    }

    /** setItemType: the kind changes and nothing else. */
    function WithType(t: ItemType): (r: Item)
      ensures r.kind == t && r.xSquare == xSquare && r.ySquare == ySquare && r.isConsumed == isConsumed
      ensures Valid() ==> r.Valid()
    {
      this.(kind := t)
    }

    /** disable: eaten and parked at (-1, -1), of the same kind. */
    function Disabled(): (r: Item)
      ensures r.isConsumed && r.xSquare == -1 && r.ySquare == -1 && r.Valid()
      ensures r.kind == kind
    {
      Item(kind, -1, -1, true)
    }

    /** consume: the points the item was worth, and the item disabled. */
    function Consume(): (r: (int, Item))
      ensures r.0 == PointValue() && r.1 == Disabled()
      ensures r.1.PointValue() == 0 && r.1.kind == kind
    {
      (PointValue(), Disabled())
    }
  }

  /** vItem(): a small dot at (-1, -1), not consumed. */
  function NewItem(): (it: Item)
    ensures it.Valid() && it.kind == ItSmallDot && !it.isConsumed
    ensures it.xSquare == -1 && it.ySquare == -1
  {
    Item(ItSmallDot, -1, -1, false)
  }

  /** vItem(x, y): a small dot at square (x, y), not consumed. */
  function ItemAt(x: int, y: int): (it: Item)
    ensures it.Valid() && it.kind == ItSmallDot && !it.isConsumed
    ensures it.xSquare == x && it.ySquare == y
  {
    Item(ItSmallDot, x, y, false)
  }

  /** Eating an item twice scores nothing the second time and changes
      nothing more. */
  lemma ConsumeTwice(it: Item)
    ensures it.Consume().1.Consume() == (0, it.Consume().1)
  {
  }

  /** No operation of an item brings back one that was eaten: disabling and
      consuming leave it eaten, and retyping keeps it eaten. */
  lemma EatenStaysEaten(it: Item, t: ItemType)
    requires it.isConsumed
    ensures it.WithType(t).isConsumed && it.Disabled().isConsumed && it.Consume().1.isConsumed
  {
  }

  /** The consumed flags of a row of items. */
  function Eaten(its: seq<Item>): (e: seq<bool>)
    ensures |e| == |its|
  {
    seq(|its|, k requires 0 <= k < |its| => its[k].isConsumed)
  }
}
