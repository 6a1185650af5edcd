/** `NSWBusService`: the API-key check, the normalisation of a departure
    monitor response into at most five arrivals, and the stop-name lookup.
    The HTTP exchange is an input: a transport failure, or a status code
    with the decoded body (`None` when decoding fails). */
module BusService {
  import opened Wrappers
  import opened Seqs
  import opened Text
  import opened Timestamps
  import opened BusModel

  /** The string resource value of an unconfigured build. */
  const DefaultKey: string := "default_key"

  const KeyNotConfigured: string :=
    "API key not configured. Please add NSW_TRANSPORT_API_KEY to local.properties"

  /** Constructing the service: the key, or the `IllegalStateException` it
      throws when the key is the placeholder. */
  function ConfiguredKey(key: string): (r: Result<string, string>)
    ensures r.Success? <==> key != DefaultKey
    ensures r.Success? ==> r.value == key
    ensures r.Failure? ==> r.error == KeyNotConfigured
  {
    if key == DefaultKey then Failure(KeyNotConfigured) else Success(key)
  }

  /** The value of the `Authorization` header both requests carry. */
  function AuthorizationHeader(key: string): (r: string)
    ensures |r| == 7 + |key| && r[..7] == "apikey " && r[7..] == key
  {
    "apikey " + key
  }

  /** The outcome of one HTTP exchange. */
  datatype Http<T> = NetworkFailure(message: Option<string>) | Response(code: int, decoded: Option<T>)

  /** OkHttp's `isSuccessful`: a 2xx status. */
  predicate IsSuccessful(code: int) {
    200 <= code < 300
  }

  /** What the `mapNotNull` lambda does with one event: drop it, keep the
      arrival it builds, or throw because a timestamp does not parse. */
  datatype EventOutcome = Dropped | Kept(arrival: BusArrival) | Throws

  function DestinationName(tr: Transportation): (r: string)
    ensures tr.destination.Some? && tr.destination.value.name.Some? ==> r == tr.destination.value.name.value
    ensures !(tr.destination.Some? && tr.destination.value.name.Some?) ==> r == "Unknown"
  {
    match tr.destination
    case Some(Destination(Some(name))) => name
    case _ => "Unknown"
  }

  /** The lambda of lines 61-81 on one event. */
  function ConvertEvent(e: StopEvent): (r: EventOutcome)
    ensures r.Dropped? <==>
            e.transportation.None? || e.transportation.value.number.None? || e.departureTimePlanned.None?
    ensures r.Kept? ==>
              && e.transportation.Some? && e.transportation.value.number.Some? && e.departureTimePlanned.Some?
              && r.arrival.routeName == e.transportation.value.number.value
              && r.arrival.scheduledTime == e.departureTimePlanned.value
              && r.arrival.realTimeTime == e.departureTimeEstimated.GetOr(e.departureTimePlanned.value)
  {
    match e.transportation
    case None => Dropped
    case Some(tr) =>
      match tr.number
      case None => Dropped
      case Some(route) =>
        var destination := DestinationName(tr);
        match e.departureTimePlanned
        case None => Dropped
        case Some(scheduled) =>
          var estimate := e.departureTimeEstimated.GetOr(scheduled);
          match Parse(scheduled)
          case None => Throws
          case Some(planned) =>
            match Parse(estimate)
            case None => Throws
            case Some(estimated) =>
              Kept(BusArrival(route, destination, scheduled, estimate, DelayMinutes(planned, estimated)))
  }

  /** An event is dropped exactly when it lacks a route number or a planned
      time; otherwise it throws exactly when one of its two times does not
      parse. */
  lemma EventOutcomes(e: StopEvent)
    ensures ConvertEvent(e).Dropped? <==>
            e.transportation.None? || e.transportation.value.number.None? || e.departureTimePlanned.None?
    ensures ConvertEvent(e).Throws? <==>
            && e.transportation.Some? && e.transportation.value.number.Some?
            && e.departureTimePlanned.Some?
            && (|| Parse(e.departureTimePlanned.value).None?
                || Parse(e.departureTimeEstimated.GetOr(e.departureTimePlanned.value)).None?)
  {
  }

  /** A kept event's arrival: its route number, its destination name or
      `Unknown`, its planned time, its estimate or else the planned time, and
      the delay between the two; no estimate means no delay. */
  lemma KeptArrival(e: StopEvent)
    requires ConvertEvent(e).Kept?
    ensures var a := ConvertEvent(e).arrival;
      && e.transportation.Some? && e.transportation.value.number.Some? && e.departureTimePlanned.Some?
      && a.routeName == e.transportation.value.number.value
      && a.destination == DestinationName(e.transportation.value)
      && a.scheduledTime == e.departureTimePlanned.value
      && a.realTimeTime == e.departureTimeEstimated.GetOr(e.departureTimePlanned.value)
      && Parse(a.scheduledTime).Some? && Parse(a.realTimeTime).Some?
      && a.delayMinutes == DelayMinutes(Parse(a.scheduledTime).value, Parse(a.realTimeTime).value)
      && (e.departureTimeEstimated.None? ==> a.realTimeTime == a.scheduledTime && a.delayMinutes == 0)
  {
    var a := ConvertEvent(e).arrival;
    if e.departureTimeEstimated.None? {
      NoDelayWithoutEstimate(Parse(a.scheduledTime).value);
    }
  }

  lemma NoDelayWithoutEstimate(t: DateTime)
    requires Valid(t)
    ensures DelayMinutes(t, t) == 0
  {
  }

  /** The lambda applied to every event, in payload order. */
  function Outcomes(events: seq<StopEvent>): seq<EventOutcome> {
    seq(|events|, k requires 0 <= k < |events| => ConvertEvent(events[k]))
  }

  /** The list `mapNotNull` builds from the lambda's outcomes: the kept
      arrivals in order, or `None` when any outcome is an exception, which
      escapes the eager `mapNotNull` whatever comes after it. */
  function Collect(outcomes: seq<EventOutcome>): (r: Option<seq<BusArrival>>)
    ensures r.None? <==> exists k :: 0 <= k < |outcomes| && outcomes[k].Throws?
    ensures r.Some? ==> |r.value| <= |outcomes|
    ensures r.Some? ==> forall x :: x in r.value ==> Kept(x) in outcomes
  {
    if outcomes == [] then Some([])
    else
      var rest := Collect(outcomes[1..]);
      assert forall k :: 1 <= k < |outcomes| ==> outcomes[k] == outcomes[1..][k - 1];
      match outcomes[0]
      case Throws => None
      case Dropped => rest
      case Kept(a) => if rest.None? then None else Some([a] + rest.value)
  }

  /** Kotlin's eager `mapNotNull` of the lambda over the events. */
  function MapEvents(events: seq<StopEvent>): (r: Option<seq<BusArrival>>)
    ensures r.None? <==> exists k :: 0 <= k < |events| && ConvertEvent(events[k]).Throws?
    ensures r.Some? ==> |r.value| <= |events|
    ensures r.Some? ==> forall x :: x in r.value ==> exists k :: 0 <= k < |events| && ConvertEvent(events[k]) == Kept(x)
  {
    var outcomes := Outcomes(events);
    assert |outcomes| == |events|;
    assert forall k :: 0 <= k < |events| ==> outcomes[k] == ConvertEvent(events[k]);
    Collect(outcomes)
  }

  /** Collecting a concatenation collects each part: nothing is skipped and
      the arrivals keep their order. */
  lemma {:induction false} CollectConcat(a: seq<EventOutcome>, b: seq<EventOutcome>)
    ensures Collect(a + b) ==
            if Collect(a).Some? && Collect(b).Some? then Some(Collect(a).value + Collect(b).value)
            else None
  {
    if a == [] {
      assert a + b == b;
      if Collect(b).Some? {
        assert [] + Collect(b).value == Collect(b).value;
      }
    } else {
      var ab := a + b;
      assert ab[0] == a[0] && ab[1..] == a[1..] + b;
      CollectConcat(a[1..], b);
      var left, right := Collect(a[1..]), Collect(b);
      if left.Some? && right.Some? && a[0].Kept? {
        assert [a[0].arrival] + (left.value + right.value) == ([a[0].arrival] + left.value) + right.value;
      }
    }
  }

  /** A dropped event changes nothing: the events after it are still
      processed as if it were not there. */
  lemma DroppedIsSkipped(before: seq<StopEvent>, e: StopEvent, after: seq<StopEvent>)
    requires ConvertEvent(e).Dropped?
    ensures MapEvents(before + [e] + after) == MapEvents(before + after)
  {
    var p, q := before + [e] + after, before + after;
    var x, y := Outcomes(before), Outcomes(after);
    assert Outcomes(p) == x + [Dropped] + y by {
      OutcomesConcat(before + [e], after);
      OutcomesConcat(before, [e]);
    }
    assert Outcomes(q) == x + y by {
      OutcomesConcat(before, after);
    }
    CollectSkipsDropped(x, y);
    calc {
      MapEvents(p);
      Collect(Outcomes(p));
      Collect(x + [Dropped] + y);
      Collect(x + y);
      Collect(Outcomes(q));
      MapEvents(q);
    }
  }

  lemma CollectSkipsDropped(x: seq<EventOutcome>, y: seq<EventOutcome>)
    ensures Collect(x + [Dropped] + y) == Collect(x + y)
  {
    CollectConcat(x + [Dropped], y);
    CollectConcat(x, [Dropped]);
    CollectConcat(x, y);
    assert Collect([Dropped]) == Some([]) by {
      assert [Dropped][1..] == [];
    }
    if Collect(x).Some? {
      assert Collect(x).value + [] == Collect(x).value;
    }
  }

  lemma OutcomesConcat(a: seq<StopEvent>, b: seq<StopEvent>)
    ensures Outcomes(a + b) == Outcomes(a) + Outcomes(b)
  {
    assert forall k :: 0 <= k < |a| + |b| ==> (a + b)[k] == if k < |a| then a[k] else b[k - |a|];
  }

  /** Outcomes that are all arrivals collect to one arrival each, in order. */
  lemma {:induction false} AllKept(outcomes: seq<EventOutcome>)
    requires forall k :: 0 <= k < |outcomes| ==> outcomes[k].Kept?
    ensures Collect(outcomes).Some? && |Collect(outcomes).value| == |outcomes|
    ensures forall k :: 0 <= k < |outcomes| ==> Collect(outcomes).value[k] == outcomes[k].arrival
  {
    if outcomes != [] {
      assert forall k :: 1 <= k < |outcomes| ==> outcomes[k] == outcomes[1..][k - 1];
      AllKept(outcomes[1..]);
    }
  }

  /** Events that all build arrivals yield one arrival each, in order. */
  lemma AllEventsKept(events: seq<StopEvent>)
    requires forall k :: 0 <= k < |events| ==> ConvertEvent(events[k]).Kept?
    ensures MapEvents(events).Some? && |MapEvents(events).value| == |events|
    ensures forall k :: 0 <= k < |events| ==> MapEvents(events).value[k] == ConvertEvent(events[k]).arrival
  {
    AllKept(Outcomes(events));
  }

  /** What `getBusArrivals` hands back: the arrivals to `callback`, or the
      message to `errorCallback`. */
  datatype ArrivalsOutcome = Delivered(arrivals: seq<BusArrival>) | Failed(message: string)

  /** The prefix of the parsing-error message; the exception's own message
      that follows it is not part of this model. */
  const ParsingError: string := "Parsing error: "

  /** `onFailure` and `onResponse` of `getBusArrivals`. */
  function BusArrivals(response: Http<ApiResponse>): (r: ArrivalsOutcome)
    ensures r.Delivered? ==> |r.arrivals| <= 5
    ensures response.NetworkFailure? ==> r == Failed("Network error: " + response.message.GetOr("null"))
    ensures response.Response? && !IsSuccessful(response.code) ==> r == Failed("API Error: " + IntToDecimal(response.code))
    ensures response.Response? && IsSuccessful(response.code) && response.decoded.None? ==> r == Failed(ParsingError)
  {
    match response
    case NetworkFailure(message) => Failed("Network error: " + message.GetOr("null"))
    case Response(code, decoded) =>
      if !IsSuccessful(code) then Failed("API Error: " + IntToDecimal(code))
      else
        match decoded
        case None => Failed(ParsingError)
        case Some(api) =>
          match api.stopEvents
          case None => Delivered([])
          case Some(events) =>
            match MapEvents(events)
            case None => Failed(ParsingError)
            case Some(arrivals) => Delivered(Take(arrivals, 5))
  }

  /** A decoded 2xx payload: no `stopEvents` is an empty delivery, not an
      error; otherwise the first `min(5, k)` of the `k` surviving arrivals
      are delivered, unless an event anywhere in the payload (after the
      fifth survivor too) throws, which fails the whole batch. */
  lemma DecodedPayload(code: int, api: ApiResponse)
    requires IsSuccessful(code)
    ensures api.stopEvents.None? ==> BusArrivals(Response(code, Some(api))) == Delivered([])
    ensures api.stopEvents.Some? ==>
            var events := api.stopEvents.value;
            && ((exists k :: 0 <= k < |events| && ConvertEvent(events[k]).Throws?)
                <==> BusArrivals(Response(code, Some(api))) == Failed(ParsingError))
            && (MapEvents(events).Some? ==>
                var survivors := MapEvents(events).value;
                && BusArrivals(Response(code, Some(api))).Delivered?
                && BusArrivals(Response(code, Some(api))).arrivals
                   == survivors[..if |survivors| < 5 then |survivors| else 5])
  {
  }

  /** A delivery happens only on a 2xx response, and every arrival it holds
      was built from an event of the payload. */
  lemma DeliveredFromPayload(response: Http<ApiResponse>)
    requires BusArrivals(response).Delivered?
    ensures response.Response? && IsSuccessful(response.code) && response.decoded.Some?
    ensures forall x :: x in BusArrivals(response).arrivals ==>
              var events := response.decoded.value.stopEvents.value;
              exists k :: 0 <= k < |events| && ConvertEvent(events[k]) == Kept(x)
  {
    var arrivals := BusArrivals(response).arrivals;
    if arrivals != [] {
      var events := response.decoded.value.stopEvents.value;
      var all := MapEvents(events).value;
      assert arrivals == Take(all, 5);
      forall x | x in arrivals
        ensures exists k :: 0 <= k < |events| && ConvertEvent(events[k]) == Kept(x)
      {
        assert x in all;
      }
    }
  }

  /** The name chain of one location: `name ?: disassembledName ?: desc`. */
  function LocationName(l: StopLocation): (r: Option<string>)
    ensures l.name.Some? ==> r == l.name
    ensures l.name.None? && l.disassembledName.Some? ==> r == l.disassembledName
    ensures l.name.None? && l.disassembledName.None? ==> r == l.desc
  {
    if l.name.Some? then l.name
    else if l.disassembledName.Some? then l.disassembledName
    else l.desc
  }

  /** `getStopInfo`: the value passed to `callback`. It never reports an
      error; every failure becomes `None`. */
  function StopName(response: Http<StopInfoResponse>): (r: Option<string>)
    ensures r.Some? ==> response.Response? && IsSuccessful(response.code) && response.decoded.Some?
    ensures r.Some? ==>
              var locations := response.decoded.value.locations;
              locations.Some? && |locations.value| > 0 && r == LocationName(locations.value[0])
  {
    match response
    case NetworkFailure(_) => None
    case Response(code, decoded) =>
      if !IsSuccessful(code) then None
      else
        match decoded
        case None => None
        case Some(info) =>
          match info.locations
          case None => None
          case Some(locations) => if locations == [] then None else LocationName(locations[0])
  }

  /** The name is missing exactly when the exchange failed, the body did not
      decode, there are no locations, or the first location has none of the
      three names. */
  lemma StopNameMissing(response: Http<StopInfoResponse>)
    ensures StopName(response).None? <==>
              || response.NetworkFailure?
              || !IsSuccessful(response.code)
              || response.decoded.None?
              || response.decoded.value.locations.None?
              || response.decoded.value.locations.value == []
              || var l := response.decoded.value.locations.value[0];
                 l.name.None? && l.disassembledName.None? && l.desc.None?
  {
  }
}
