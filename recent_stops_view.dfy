/** `RecentStopsAdapter`: the carousel of remembered stops, three to a page,
    and what one page shows. */
module RecentStopsPages {
  import opened Wrappers
  import opened Seqs
  import opened BusModel

  /** Stops per carousel page. */
  const PageSize: nat := 3

  /** `stops.chunked(3).map { BusStopGroup(it) }`. */
  function Pages(stops: seq<BusStop>): (r: seq<BusStopGroup>)
    ensures |r| == |Chunked(stops, PageSize)|
    ensures forall k :: 0 <= k < |r| ==> r[k].stops == Chunked(stops, PageSize)[k]
  {
    var chunks := Chunked(stops, PageSize);
    seq(|chunks|, k requires 0 <= k < |chunks| => BusStopGroup(chunks[k]))
  }

  /** The stops of each page, page after page. */
  function PageStops(pages: seq<BusStopGroup>): (r: seq<seq<BusStop>>)
    ensures |r| == |pages|
    ensures forall k :: 0 <= k < |pages| ==> r[k] == pages[k].stops
  {
    seq(|pages|, k requires 0 <= k < |pages| => pages[k].stops)
  }

  /** Reading the pages one after the other gives back the stops in order;
      every page holds one to three stops and all but the last exactly
      three; and there are `(n + 2) / 3` pages, none for no stops. */
  lemma PagesPartition(stops: seq<BusStop>)
    ensures Flatten(PageStops(Pages(stops))) == stops
    ensures forall k :: 0 <= k < |Pages(stops)| ==> 1 <= |Pages(stops)[k].stops| <= PageSize
    ensures forall k :: 0 <= k < |Pages(stops)| - 1 ==> |Pages(stops)[k].stops| == PageSize
    ensures |Pages(stops)| == (|stops| + 2) / 3
    ensures stops == [] <==> Pages(stops) == []
  {
    var chunks := Chunked(stops, PageSize);
    assert PageStops(Pages(stops)) == chunks;
    ChunkedCount3(stops);
  }

  /** The name line of a slot: the stop's name, or `Stop <id>`. */
  function DisplayName(stop: BusStop): (r: string)
    ensures stop.name.Some? ==> r == stop.name.value
    ensures stop.name.None? ==> r == "Stop " + stop.id
  {
    match stop.name
    case Some(name) => name
    case None => "Stop " + stop.id
  }

  /** One filled slot: its id line, its name line, and the stop its click
      listener reports. */
  datatype Slot = Slot(idText: string, nameText: string, reports: BusStop)

  function SlotOf(stop: BusStop): Slot {
    Slot(stop.id, DisplayName(stop), stop)
  }

  /** What `bind` leaves on a page's views: the first slot, the second and
      third when shown (`None` is `GONE`), and whether the separator before
      the second slot is shown. */
  datatype PageView = PageView(first: Slot, second: Option<Slot>, third: Option<Slot>, secondSeparator: bool)

  /** `bind` of a page onto a view whose separator was `separatorBefore`:
      the separator is made visible with a second stop and otherwise left
      as the recycled view had it. */
  function BindPage(group: BusStopGroup, separatorBefore: bool): (v: PageView)
    requires group.stops != []
    ensures v.first == SlotOf(group.stops[0])
    ensures v.second.Some? <==> group.HasSecondStop()
    ensures v.third.Some? <==> group.HasThirdStop()
    ensures v.second.Some? ==> v.second.value == SlotOf(group.stops[1])
    ensures v.third.Some? ==> v.third.value == SlotOf(group.stops[2])
    ensures v.secondSeparator <==> group.HasSecondStop() || separatorBefore
  {
    PageView(
      SlotOf(group.stops[0]),
      if group.HasSecondStop() then Some(SlotOf(group.stops[1])) else None,
      if group.HasThirdStop() then Some(SlotOf(group.stops[2])) else None,
      if group.HasSecondStop() then true else separatorBefore)
  }

  /** Slot `k` of a page is shown exactly when the page has more than `k`
      stops, and then shows stop `k` and reports it when clicked. */
  lemma BoundSlots(group: BusStopGroup, separatorBefore: bool)
    requires 1 <= |group.stops| <= PageSize
    ensures var v := BindPage(group, separatorBefore);
      && (v.second.Some? <==> group.HasSecondStop()) && (group.HasSecondStop() <==> |group.stops| >= 2)
      && (v.third.Some? <==> group.HasThirdStop()) && (group.HasThirdStop() <==> |group.stops| >= 3)
      && (v.third.Some? ==> v.second.Some?)
      && v.first.reports == group.stops[0] && v.first.idText == group.stops[0].id
      && (v.second.Some? ==> v.second.value.reports == group.stops[1] && v.second.value.idText == group.stops[1].id)
      && (v.third.Some? ==> v.third.value.reports == group.stops[2] && v.third.value.idText == group.stops[2].id)
      && (v.second.Some? ==> v.secondSeparator)
  {
  }

  /** On a page of one stop bound onto a recycled view that showed its
      separator, the separator stays visible next to a hidden second slot. */
  lemma RecycledSeparator(stop: BusStop)
    ensures var v := BindPage(BusStopGroup([stop]), true);
      v.second.None? && v.secondSeparator
  {
  }

  class RecentStopsAdapter {
    var stopGroups: seq<BusStopGroup>

    /** Every page holds one to three stops. */
    ghost predicate Valid()
      reads this
    {
      forall k :: 0 <= k < |stopGroups| ==> 1 <= |stopGroups[k].stops| <= PageSize
    }

    constructor()
      ensures stopGroups == [] && Valid()
    {
      stopGroups := [];
    }

    /** `getItemCount`. */
    function ItemCount(): (n: nat)
      reads this
      ensures n == |stopGroups|
    {
      |stopGroups|
    }

    /** `updateStops`: the pages of `stops` replace the old ones. */
    method UpdateStops(stops: seq<BusStop>)
      modifies this
      ensures stopGroups == Pages(stops)
      ensures ItemCount() == (|stops| + 2) / 3
      ensures Flatten(PageStops(stopGroups)) == stops
      ensures Valid()
    {
      PagesPartition(stops);
      stopGroups := Pages(stops);
    }

    /** `onBindViewHolder` at `position`, onto a view whose separator was
        `separatorBefore`. */
    method Bind(position: nat, separatorBefore: bool) returns (view: PageView)
      requires Valid() && position < |stopGroups|
      ensures view == BindPage(stopGroups[position], separatorBefore)
      ensures view.first.reports == stopGroups[position].stops[0]
    {
      view := BindPage(stopGroups[position], separatorBefore);
    }
  }
}
