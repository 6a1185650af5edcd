/** `BusArrivalAdapter`: the list of arrivals and what one row shows. */
module ArrivalRows {
  import opened Wrappers
  import opened Timestamps
  import opened BusModel
  import opened BusService

  /** The colour class of a row's delay line: red, green, or the theme's
      on-background colour. */
  datatype DelayClass = Late | Early | OnTime

  /** The `when` over `delayMinutes`. */
  function Classify(delayMinutes: int): (c: DelayClass)
    ensures c == Late <==> delayMinutes > 0
    ensures c == Early <==> delayMinutes < 0
    ensures c == OnTime <==> delayMinutes == 0
  {
    if delayMinutes > 0 then Late
    else if delayMinutes < 0 then Early
    else OnTime
  }

  /** On a normalised arrival the class is read off its two times: late once
      the estimate is a full minute after the plan, early once it is more
      than 59 seconds before, on time in between. */
  lemma ClassOfEvent(e: StopEvent)
    requires ConvertEvent(e).Kept?
    ensures var a := ConvertEvent(e).arrival;
      var planned, estimated := Parse(a.scheduledTime).value, Parse(a.realTimeTime).value;
      var gap := EpochNano(estimated) - EpochNano(planned);
      && (Classify(a.delayMinutes) == Late <==> gap >= 60 * NanosPerSecond)
      && (Classify(a.delayMinutes) == Early <==> gap < -59 * NanosPerSecond)
      && (Classify(a.delayMinutes) == OnTime <==> -59 * NanosPerSecond <= gap < 60 * NanosPerSecond)
  {
    KeptArrival(e);
    var a := ConvertEvent(e).arrival;
    DelaySign(Parse(a.scheduledTime).value, Parse(a.realTimeTime).value);
  }

  /** What `onBindViewHolder` puts on a row: the route, `To <destination>`,
      the time label (`None` where `getFormattedTime` throws), the delay
      class and whether the separator line is shown. */
  datatype Row = Row(
    routeText: string,
    destinationText: string,
    timeText: Option<string>,
    delayClass: DelayClass,
    separatorVisible: bool)

  function RowAt(arrivals: seq<BusArrival>, position: nat,
                 readInstant: string -> Option<InstantReading>): (r: Row)
    requires position < |arrivals|
    ensures r.routeText == arrivals[position].routeName
    ensures r.destinationText == "To " + arrivals[position].destination
    ensures r.timeText == FormattedTime(arrivals[position].realTimeTime, readInstant)
    ensures r.delayClass == Classify(arrivals[position].delayMinutes)
    ensures !r.separatorVisible <==> position == |arrivals| - 1
  {
    var a := arrivals[position];
    Row(a.routeName, "To " + a.destination, FormattedTime(a.realTimeTime, readInstant),
        Classify(a.delayMinutes), position != |arrivals| - 1)
  }

  /** Exactly one row of a non-empty list hides its separator: the last. */
  lemma OneHiddenSeparator(arrivals: seq<BusArrival>, readInstant: string -> Option<InstantReading>)
    requires arrivals != []
    ensures !RowAt(arrivals, |arrivals| - 1, readInstant).separatorVisible
    ensures forall p :: 0 <= p < |arrivals| - 1 ==> RowAt(arrivals, p, readInstant).separatorVisible
  {
  }

  class BusArrivalAdapter {
    var arrivals: seq<BusArrival>

    constructor(initial: seq<BusArrival>)
      ensures arrivals == initial
    {
      arrivals := initial;
    }

    /** `getItemCount`. */
    function ItemCount(): (n: nat)
      reads this
      ensures n == |arrivals|
    {
      |arrivals|
    }

    /** `updateArrivals`: the new list replaces the old one whole. */
    method UpdateArrivals(newArrivals: seq<BusArrival>)
      modifies this
      ensures arrivals == newArrivals && ItemCount() == |newArrivals|
    {
      arrivals := newArrivals;
    }

    /** `onBindViewHolder` at `position`. */
    method Bind(position: nat, readInstant: string -> Option<InstantReading>) returns (row: Row)
      requires position < |arrivals|
      ensures row == RowAt(arrivals, position, readInstant)
      ensures !row.separatorVisible <==> position == ItemCount() - 1
    {
      row := RowAt(arrivals, position, readInstant);
    }
  }
}
