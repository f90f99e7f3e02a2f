/** The window tiers (eUIType) and the order arithmetic of GetCanvasOder. */
module UITypes {

  /** eUIType. The numeric value of each tier is its base draw order. */
  datatype UIType = None | BaseUI | StackUI | SuperpositionUI | MaskUI | TopUI

  /** The cast (int)rType: the enum value of a tier. */
  function TypeValue(t: UIType): int {
    match t
    case None => 0
    case BaseUI => 1
    case StackUI => 2000
    case SuperpositionUI => 4000
    case MaskUI => 6000
    case TopUI => 8000
  }

  /** The tiers whose order accumulates over the windows already in them. */
  predicate Accumulates(t: UIType) {
    t == StackUI || t == SuperpositionUI
  }

  /** The gap GetCanvasOder leaves above the highest window of an accumulating tier. */
  const Margin: int := 100

  /** Mathf.Max over a non-empty int array. */
  function MaxOf(xs: seq<int>): (m: int)
    requires |xs| > 0
    ensures m in xs
    ensures forall i :: 0 <= i < |xs| ==> xs[i] <= m
  {
    if |xs| == 1 then xs[0]
    else
      var rest := MaxOf(xs[1..]);
      assert forall i :: 1 <= i < |xs| ==> xs[i] == xs[1..][i - 1];
      if xs[0] >= rest then xs[0] else rest
  }

  /** The order GetCanvasOder gives tier t, from the orders it reads: one
      entry per name of the stack list (0 for a name that is no longer
      registered) and one per window of the overlay list. */
  function TierOrder(t: UIType, stackOrders: seq<int>, overlayOrders: seq<int>): (r: int)
    ensures !Accumulates(t) ==> r == TypeValue(t)
    ensures t == StackUI && stackOrders == [] ==> r == 2000
    ensures t == StackUI && stackOrders != [] ==>
      (forall i :: 0 <= i < |stackOrders| ==> stackOrders[i] + Margin <= r) && r - Margin in stackOrders
    ensures t == SuperpositionUI && overlayOrders == [] ==> r == 4000
    ensures t == SuperpositionUI && overlayOrders != [] ==>
      (forall i :: 0 <= i < |overlayOrders| ==> overlayOrders[i] + Margin <= r) && r - Margin in overlayOrders
  {
    match t
    case SuperpositionUI => if |overlayOrders| > 0 then MaxOf(overlayOrders) + Margin else TypeValue(t)
    case StackUI => if |stackOrders| > 0 then MaxOf(stackOrders) + Margin else TypeValue(t)
    case _ => TypeValue(t)
  }
}
