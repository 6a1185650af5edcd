/** `BusNumberAdapter`: the row of route chips, one of them selected. */
module RouteChips {

  class BusNumberAdapter {
    var busNumbers: seq<string>
    var selectedPosition: int

    /** A new adapter selects the first chip. */
    constructor(initial: seq<string>)
      ensures busNumbers == initial && selectedPosition == 0
    {
      busNumbers := initial;
      selectedPosition := 0;
    }

    /** `getItemCount`. */
    function ItemCount(): (n: nat)
      reads this
      ensures n == |busNumbers|
    {
      |busNumbers|
    }

    /** The `isSelected` flag `onBindViewHolder` passes to each chip. */
    function Rendered(): (r: seq<bool>)
      reads this
      ensures |r| == |busNumbers|
      ensures forall p :: 0 <= p < |r| ==> (r[p] <==> p == selectedPosition)
    {
      seq(|busNumbers|, p requires 0 <= p < |busNumbers| reads this => p == selectedPosition)
    }

    /** `updateData`: the new list replaces the old one and the selection
        returns to the first chip. */
    method UpdateData(newBusNumbers: seq<string>)
      modifies this
      ensures busNumbers == newBusNumbers && selectedPosition == 0
      ensures ItemCount() == |newBusNumbers|
    {
      busNumbers := newBusNumbers;
      selectedPosition := 0;
    }

    /** The click listener of the chip at `position`: it becomes the selected
        one and its route is reported to the screen. */
    method Click(position: nat) returns (reported: string)
      requires position < |busNumbers|
      modifies this
      ensures selectedPosition == position && busNumbers == old(busNumbers)
      ensures reported == busNumbers[position]
      ensures forall p :: 0 <= p < |busNumbers| ==> (Rendered()[p] <==> p == position)
    {
      selectedPosition := position;
      reported := busNumbers[position];
    }
  }

  /** At most one chip is rendered selected. */
  lemma AtMostOneSelected(chips: BusNumberAdapter)
    ensures forall p, q :: 0 <= p < q < |chips.busNumbers| ==> !(chips.Rendered()[p] && chips.Rendered()[q])
  {
  }

  /** After `updateData` with chips, exactly the first one is selected. */
  lemma FirstSelectedAfterUpdate(chips: BusNumberAdapter)
    requires chips.selectedPosition == 0 && chips.busNumbers != []
    ensures chips.Rendered()[0]
    ensures forall p :: 1 <= p < |chips.busNumbers| ==> !chips.Rendered()[p]
  {
  }
}
