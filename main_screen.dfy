/** `MainActivity`: the decisions the screen takes between the service, the
    recent-stops store and the three adapters. */
module MainScreen {
  import opened Wrappers
  import opened Seqs
  import opened Text
  import opened BusModel
  import opened BusService
  import opened RecentStopsStore
  import opened RecentStopsPages
  import opened ArrivalRows
  import opened RouteChips

  /** The chip that stands for every route. */
  const AllChip: string := "All"

  const EmptyInputMessage: string := "Please enter a stop ID"

  /** `arrivals.map { it.routeName }`. */
  function Routes(arrivals: seq<BusArrival>): (r: seq<string>)
    ensures |r| == |arrivals|
    ensures forall k :: 0 <= k < |arrivals| ==> r[k] == arrivals[k].routeName
  {
    seq(|arrivals|, k requires 0 <= k < |arrivals| => arrivals[k].routeName)
  }

  /** `listOf("All") + arrivals.map { it.routeName }.distinct()`. */
  function ChipList(arrivals: seq<BusArrival>): (chips: seq<string>)
    ensures |chips| >= 1 && chips[0] == AllChip
    ensures forall c :: c in chips[1..] <==> c in Routes(arrivals)
  {
    var chips := [AllChip] + Distinct(Routes(arrivals));
    assert chips[1..] == Distinct(Routes(arrivals));
    chips
  }

  /** The chip list starts with `All`, then holds every route of the
      arrivals exactly once, no other value, in the order in which each
      route first occurs. */
  lemma ChipListShape(arrivals: seq<BusArrival>)
    ensures var chips := ChipList(arrivals);
      && |chips| >= 1 && chips[0] == AllChip
      && (forall k :: 0 <= k < |arrivals| ==> arrivals[k].routeName in chips[1..])
      && (forall c :: c in chips[1..] ==> c in Routes(arrivals))
      && NoDuplicates(chips[1..])
      && (forall i, j :: 0 <= i < j < |chips[1..]| ==>
            FirstIndex(Routes(arrivals), chips[1..][i]) < FirstIndex(Routes(arrivals), chips[1..][j]))
  {
    var routes := Routes(arrivals);
    assert ChipList(arrivals)[1..] == Distinct(routes);
    assert forall k :: 0 <= k < |arrivals| ==> arrivals[k].routeName == routes[k] && routes[k] in routes;
    DistinctFirstOccurrenceOrder(routes);
  }

  /** `allArrivals.filter { it.routeName == busNumber }`. */
  function RouteFilter(arrivals: seq<BusArrival>, route: string): (r: seq<BusArrival>)
    ensures forall a :: a in r <==> a in arrivals && a.routeName == route
  {
    Filter(arrivals, (a: BusArrival) => a.routeName == route)
  }

  /** Filtering keeps the order of the arrivals: it filters each part of a
      concatenation separately. */
  lemma RouteFilterConcat(a: seq<BusArrival>, b: seq<BusArrival>, route: string)
    ensures RouteFilter(a + b, route) == RouteFilter(a, route) + RouteFilter(b, route)
  {
    FilterConcat(a, b, (x: BusArrival) => x.routeName == route);
  }

  /** A route taken from the arrivals has at least one arrival. */
  lemma RouteFilterOfRoute(arrivals: seq<BusArrival>, route: string)
    requires route in Routes(arrivals)
    ensures RouteFilter(arrivals, route) != []
  {
    var k :| 0 <= k < |arrivals| && Routes(arrivals)[k] == route;
    assert arrivals[k] in RouteFilter(arrivals, route);
  }

  /** The carousel indicators `setupCarouselIndicator(count)` leaves: none
      for one page or less; otherwise one per page with only the first
      active. */
  function IndicatorsFor(count: int): (r: seq<bool>)
    ensures count <= 1 ==> r == []
    ensures count > 1 ==> |r| == count && forall k :: 0 <= k < count ==> (r[k] <==> k == 0)
  {
    if count <= 1 then [] else seq(count, k requires 0 <= k < count => k == 0)
  }

  /** What is shown in the area below the search field. */
  datatype Panel = Blank | Loading | Results | NoData | Error(message: string)

  /** The screen's own fields. */
  datatype Screen = Screen(
    allArrivals: seq<BusArrival>,
    availableBusNumbers: seq<string>,
    currentStopId: Option<string>,
    stopIdText: string,
    indicators: seq<bool>,
    indicatorsVisible: bool,
    recentSectionVisible: bool,
    panel: Panel)

  /** What the arrivals area holds: the screen's kept arrivals and chips,
      the lists the two adapters show, the selected chip and the panel. */
  datatype ArrivalsArea = ArrivalsArea(
    allArrivals: seq<BusArrival>,
    availableBusNumbers: seq<string>,
    shown: seq<BusArrival>,
    chips: seq<string>,
    selectedChip: int,
    panel: Panel)

  /** The arrivals area once an answer of `getBusArrivals` is handled: a
      non-empty list is kept, shown and turned into chips with the first
      selected; an empty list or a failure changes the panel only. */
  function AfterOutcome(area: ArrivalsArea, outcome: ArrivalsOutcome): ArrivalsArea {
    match outcome
    case Delivered(arrivals) =>
      if arrivals != [] then ArrivalsArea(arrivals, ChipList(arrivals), arrivals, ChipList(arrivals), 0, Results)
      else area.(panel := NoData)
    case Failed(message) => area.(panel := Error(message))
  }

  /** Whether an answer leads `getBusArrivalsWithStopName` to add the stop
      again: arrivals came and the stop has a name. */
  predicate ReAdds(outcome: ArrivalsOutcome, stopName: Option<string>) {
    outcome.Delivered? && outcome.arrivals != [] && stopName.Some?
  }

  /** The entry a search leaves at the front of the recent stops: the name
      found, and the time of the second add when there was one. */
  function SearchedStop(stopId: string, stopName: Option<string>, outcome: ArrivalsOutcome,
                        nowInfo: int, nowArrivals: int): BusStop {
    BusStop(stopId, stopName, if ReAdds(outcome, stopName) then nowArrivals else nowInfo)
  }

  class MainActivity {
    const recentStopsManager: RecentStopsManager
    const adapter: BusArrivalAdapter
    const busNumberAdapter: BusNumberAdapter
    const recentStopsAdapter: RecentStopsAdapter

    var allArrivals: seq<BusArrival>
    var availableBusNumbers: seq<string>
    var currentStopId: Option<string>
    /** The text of the search field. */
    var stopIdText: string
    /** One entry per carousel indicator: whether it is the active one. */
    var indicators: seq<bool>
    var indicatorsVisible: bool
    var recentSectionVisible: bool
    var panel: Panel

    function State(): Screen
      reads this
    {
      Screen(allArrivals, availableBusNumbers, currentStopId, stopIdText,
             indicators, indicatorsVisible, recentSectionVisible, panel)
    }

    function Area(): ArrivalsArea
      reads this, adapter, busNumberAdapter
    {
      ArrivalsArea(allArrivals, availableBusNumbers, adapter.arrivals,
                   busNumberAdapter.busNumbers, busNumberAdapter.selectedPosition, panel)
    }

    /** The carousel shows the stored list: its pages, one indicator per
        page when there are several, and the section only when the list is
        not empty. */
    ghost predicate CarouselFollowsStore()
      reads this, recentStopsManager, recentStopsAdapter
    {
      && recentStopsAdapter.stopGroups == Pages(Listed(recentStopsManager.prefs))
      && indicators == IndicatorsFor(recentStopsAdapter.ItemCount())
      && (indicatorsVisible <==> recentStopsAdapter.ItemCount() > 1)
      && (recentSectionVisible <==> Listed(recentStopsManager.prefs) != [])
    }

    /** The chip adapter shows the chip list, and every chip but `All`
        names a route of the arrivals it was built from. */
    ghost predicate Valid()
      reads this, busNumberAdapter
    {
      && busNumberAdapter.busNumbers == availableBusNumbers
      && forall k :: 0 <= k < |availableBusNumbers| ==>
           availableBusNumbers[k] == AllChip || availableBusNumbers[k] in Routes(allArrivals)
    }

    /** `onCreate`: the store over the persisted entry, empty adapters,
        then `loadRecentStops`. */
    constructor(persisted: Persisted)
      ensures fresh(recentStopsManager) && fresh(adapter) && fresh(busNumberAdapter) && fresh(recentStopsAdapter)
      ensures recentStopsManager.prefs == persisted
      ensures allArrivals == [] && availableBusNumbers == [] && currentStopId == None
      ensures recentStopsAdapter.stopGroups == Pages(Listed(persisted))
      ensures indicators == IndicatorsFor((|Listed(persisted)| + 2) / 3)
      ensures Valid()
    {
      recentStopsManager := new RecentStopsManager(persisted);
      adapter := new BusArrivalAdapter([]);
      busNumberAdapter := new BusNumberAdapter([]);
      recentStopsAdapter := new RecentStopsAdapter();
      allArrivals := [];
      availableBusNumbers := [];
      currentStopId := None;
      stopIdText := "";
      indicators := [];
      indicatorsVisible := false;
      recentSectionVisible := false;
      panel := Blank;
      new;
      LoadRecentStops();
      PagesPartition(Listed(persisted));
    }

    /** `setupCarouselIndicator`: clears the indicators and, for more than
        one page, adds one per page, the first active. */
    method SetupCarouselIndicator(itemCount: int)
      modifies this
      ensures indicators == IndicatorsFor(itemCount)
      ensures indicatorsVisible <==> itemCount > 1
      ensures State() == old(State()).(indicators := indicators, indicatorsVisible := indicatorsVisible)
    {
      indicators := [];
      if itemCount <= 1 {
        indicatorsVisible := false;
        return;
      }
      indicatorsVisible := true;
      for i := 0 to itemCount
        invariant |indicators| == i
        invariant forall k :: 0 <= k < i ==> (indicators[k] <==> k == 0)
        invariant State() == old(State()).(indicators := indicators, indicatorsVisible := true)
      {
        indicators := indicators + [i == 0];
      }
    }

    /** `updateIndicator`: exactly the indicator at `position` becomes
        active; none is when `position` is out of range. */
    method UpdateIndicator(position: int)
      modifies this
      ensures |indicators| == |old(indicators)|
      ensures forall k :: 0 <= k < |indicators| ==> (indicators[k] <==> k == position)
      ensures State() == old(State()).(indicators := indicators)
    {
      for index := 0 to |indicators|
        invariant |indicators| == |old(indicators)|
        invariant forall k :: 0 <= k < index ==> (indicators[k] <==> k == position)
        invariant State() == old(State()).(indicators := indicators)
      {
        indicators := indicators[index := index == position];
      }
    }

    /** The scroll listener once the carousel settles on `snapPosition`. */
    method OnPageSettled(snapPosition: int)
      modifies this
      ensures 0 <= snapPosition < |old(indicators)| ==>
                forall k :: 0 <= k < |indicators| ==> (indicators[k] <==> k == snapPosition)
      ensures !(0 <= snapPosition < |old(indicators)|) ==> indicators == old(indicators)
      ensures |indicators| == |old(indicators)|
      ensures State() == old(State()).(indicators := indicators)
    {
      if 0 <= snapPosition < |indicators| {
        UpdateIndicator(snapPosition);
      }
    }

    /** `loadRecentStops`: pages, indicators and the section's visibility
        follow the stored list; the indicator count is the page count. */
    method LoadRecentStops()
      modifies this, recentStopsAdapter
      ensures recentStopsAdapter.stopGroups == Pages(Listed(recentStopsManager.prefs))
      ensures indicators == IndicatorsFor(recentStopsAdapter.ItemCount())
      ensures indicatorsVisible <==> recentStopsAdapter.ItemCount() > 1
      ensures recentSectionVisible <==> Listed(recentStopsManager.prefs) != []
      ensures State() == old(State()).(indicators := indicators, indicatorsVisible := indicatorsVisible,
                                       recentSectionVisible := recentSectionVisible)
    {
      var recentStops := recentStopsManager.GetRecentStops();
      recentStopsAdapter.UpdateStops(recentStops);
      var groupCount := (|recentStops| + 2) / 3;
      SetupCarouselIndicator(groupCount);
      recentSectionVisible := recentStops != [];
    }

    /** `showResults`: keeps the arrivals, shows them, and rebuilds the chips
        with the first one selected. */
    method ShowResults(arrivals: seq<BusArrival>)
      modifies this, adapter, busNumberAdapter
      ensures adapter.arrivals == arrivals
      ensures busNumberAdapter.busNumbers == ChipList(arrivals) && busNumberAdapter.selectedPosition == 0
      ensures State() == old(State()).(allArrivals := arrivals, availableBusNumbers := ChipList(arrivals),
                                       panel := Results)
      ensures Valid()
    {
      allArrivals := arrivals;
      adapter.UpdateArrivals(arrivals);
      availableBusNumbers := ChipList(arrivals);
      ChipListShape(arrivals);
      busNumberAdapter.UpdateData(availableBusNumbers);
      panel := Results;
    }

    /** `filterByBusNumber`: `All` shows every arrival; a route shows its
        arrivals in order, or the no-data state with the list left as it
        was when there are none. The kept arrivals never change. */
    method FilterByBusNumber(busNumber: string)
      modifies this, adapter
      ensures busNumber == AllChip ==> adapter.arrivals == allArrivals && panel == old(panel)
      ensures busNumber != AllChip && RouteFilter(allArrivals, busNumber) != [] ==>
                adapter.arrivals == RouteFilter(allArrivals, busNumber) && panel == old(panel)
      ensures busNumber != AllChip && RouteFilter(allArrivals, busNumber) == [] ==>
                adapter.arrivals == old(adapter.arrivals) && panel == NoData
      ensures State() == old(State()).(panel := panel)
    {
      if busNumber == AllChip {
        adapter.UpdateArrivals(allArrivals);
      } else {
        var filteredArrivals := RouteFilter(allArrivals, busNumber);
        if filteredArrivals != [] {
          adapter.UpdateArrivals(filteredArrivals);
        } else {
          panel := NoData;
        }
      }
    }

    /** A click on the chip at `position`: it becomes the selected chip and
        its filter is applied. Every chip names a route with arrivals, so a
        chip click never leads to the no-data state. */
    method OnChipClicked(position: nat)
      requires Valid() && position < |busNumberAdapter.busNumbers|
      modifies this, adapter, busNumberAdapter
      ensures busNumberAdapter.selectedPosition == position
      ensures var chip := old(availableBusNumbers)[position];
        adapter.arrivals == if chip == AllChip then allArrivals else RouteFilter(allArrivals, chip)
      ensures State() == old(State()) && Valid()
    {
      var chip := busNumberAdapter.Click(position);
      if chip != AllChip {
        RouteFilterOfRoute(allArrivals, chip);
      }
      FilterByBusNumber(chip);
    }

    /** The callbacks of `getBusArrivalsWithStopName`: arrivals are shown
        and, when the stop has a name, the stop is added once more and the
        carousel reloaded; an empty list shows the no-data state and a
        failure its message, and neither touches anything else. */
    method OnArrivals(stopId: string, stopName: Option<string>, outcome: ArrivalsOutcome, now: int)
      requires Valid()
      modifies this, recentStopsManager, adapter, busNumberAdapter, recentStopsAdapter
      ensures Area() == AfterOutcome(old(Area()), outcome)
      ensures ReAdds(outcome, stopName) ==>
                && Listed(recentStopsManager.prefs) ==
                     Added(old(Listed(recentStopsManager.prefs)), BusStop(stopId, stopName, now))
                && CarouselFollowsStore()
      ensures !ReAdds(outcome, stopName) ==>
                && unchanged(recentStopsManager, recentStopsAdapter)
                && indicators == old(indicators) && indicatorsVisible == old(indicatorsVisible)
                && recentSectionVisible == old(recentSectionVisible)
      ensures currentStopId == old(currentStopId) && stopIdText == old(stopIdText)
      ensures Valid()
    {
      panel := Blank;
      match outcome
      case Delivered(arrivals) =>
        if arrivals != [] {
          ShowResults(arrivals);
          if stopName.Some? {
            recentStopsManager.AddRecentStop(stopId, stopName, now);
            LoadRecentStops();
          }
        } else {
          panel := NoData;
        }
      case Failed(message) =>
        panel := Error(message);
    }

    /** `searchBusArrivals` with the answers of both requests: the stop is
        remembered under the name found (none when the lookup fails) and the
        carousel reloaded, then the answer for the arrivals is shown; with
        arrivals and a name the stop is added once more, which only renews
        its time. The search field is left as it was. */
    method SearchBusArrivals(stopId: string, stopInfo: Http<StopInfoResponse>,
                             response: Http<ApiResponse>, nowInfo: int, nowArrivals: int)
      requires Valid()
      modifies this, recentStopsManager, adapter, busNumberAdapter, recentStopsAdapter
      ensures currentStopId == Some(stopId) && stopIdText == old(stopIdText)
      ensures Listed(recentStopsManager.prefs) ==
                Added(old(Listed(recentStopsManager.prefs)),
                      SearchedStop(stopId, StopName(stopInfo), BusArrivals(response), nowInfo, nowArrivals))
      ensures Area() == AfterOutcome(old(Area()), BusArrivals(response))
      ensures CarouselFollowsStore()
      ensures Valid()
    {
      currentStopId := Some(stopId);
      panel := Loading;
      var stopName := StopName(stopInfo);
      ghost var before := Listed(recentStopsManager.prefs);
      recentStopsManager.AddRecentStop(stopId, stopName, nowInfo);
      LoadRecentStops();
      var outcome := BusArrivals(response);
      OnArrivals(stopId, stopName, outcome, nowArrivals);
      if ReAdds(outcome, stopName) {
        ReAddSameId(before, BusStop(stopId, stopName, nowInfo), BusStop(stopId, stopName, nowArrivals));
      }
    }

    /** `loadBusArrivals`, the click on a remembered stop: fills the search
        field, moves the stop to the front with no name, then searches; the
        click's own entry is replaced by the search's. */
    method LoadBusArrivals(stopId: string, stopInfo: Http<StopInfoResponse>,
                           response: Http<ApiResponse>, nowClick: int, nowInfo: int, nowArrivals: int)
      requires Valid()
      modifies this, recentStopsManager, adapter, busNumberAdapter, recentStopsAdapter
      ensures currentStopId == Some(stopId) && stopIdText == stopId
      ensures Listed(recentStopsManager.prefs) ==
                Added(old(Listed(recentStopsManager.prefs)),
                      SearchedStop(stopId, StopName(stopInfo), BusArrivals(response), nowInfo, nowArrivals))
      ensures Area() == AfterOutcome(old(Area()), BusArrivals(response))
      ensures CarouselFollowsStore()
      ensures Valid()
    {
      currentStopId := Some(stopId);
      stopIdText := stopId;
      ghost var before := Listed(recentStopsManager.prefs);
      recentStopsManager.AddRecentStop(stopId, None, nowClick);
      LoadRecentStops();
      SearchBusArrivals(stopId, stopInfo, response, nowInfo, nowArrivals);
      ReAddSameId(before, BusStop(stopId, None, nowClick),
                  SearchedStop(stopId, StopName(stopInfo), BusArrivals(response), nowInfo, nowArrivals));
    }

    /** What the user types into the search field. */
    method EnterText(text: string)
      modifies this
      ensures State() == old(State()).(stopIdText := text)
    {
      stopIdText := text;
    }

    /** The search button and the keyboard action: the trimmed field is
        searched, and when nothing is left the error message is shown and
        nothing else changes. */
    method SubmitSearch(stopInfo: Http<StopInfoResponse>, response: Http<ApiResponse>,
                        nowInfo: int, nowArrivals: int)
      requires Valid()
      modifies this, recentStopsManager, adapter, busNumberAdapter, recentStopsAdapter
      ensures var stopId := Trim(old(stopIdText));
        stopId != [] ==>
          && currentStopId == Some(stopId) && stopIdText == old(stopIdText)
          && Listed(recentStopsManager.prefs) ==
               Added(old(Listed(recentStopsManager.prefs)),
                     SearchedStop(stopId, StopName(stopInfo), BusArrivals(response), nowInfo, nowArrivals))
          && Area() == AfterOutcome(old(Area()), BusArrivals(response))
          && CarouselFollowsStore()
      ensures Trim(old(stopIdText)) == [] ==>
                && State() == old(State()).(panel := Error(EmptyInputMessage))
                && unchanged(recentStopsManager, adapter, busNumberAdapter, recentStopsAdapter)
      ensures Valid()
    {
      var stopId := Trim(stopIdText);
      if stopId != [] {
        SearchBusArrivals(stopId, stopInfo, response, nowInfo, nowArrivals);
      } else {
        panel := Error(EmptyInputMessage);
      }
    }
  }

  /** Adding a stop again under the same id replaces the earlier entry: the
      list is as if only the second add had happened. */
  lemma ReAddSameId(stops: seq<BusStop>, first: BusStop, second: BusStop)
    requires first.id == second.id
    ensures Added(Added(stops, first), second) == Added(stops, second)
  {
    var others := RemoveId(stops, first.id);
    var kept := Take(others, MaxRecentStops - 1);
    AddedShape(stops, first);
    var once := Added(stops, first);
    assert once == [first] + kept;
    assert forall k :: 0 <= k < |kept| ==> kept[k] in others;
    RemoveIdConcat([first], kept, first.id);
    assert RemoveId([first], first.id) == [] by {
      assert [first][1..] == [];
    }
    RemoveAbsentId(kept, first.id);
    assert RemoveId(once, second.id) == kept;
    TakeConsTake(second, others, MaxRecentStops - 1);
    assert Take([second] + kept, MaxRecentStops) == [second] + kept;
  }
}
