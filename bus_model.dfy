/** The app's data: the decoded departure-monitor and stop-finder payloads,
    the normalised arrival, the remembered stop and its carousel page, and
    the arrival-time label of `BusArrival.getFormattedTime`. */
module BusModel {
  import opened Wrappers
  import opened Text
  import opened Timestamps

  /** One departure of the departure-monitor payload; absent JSON keys are `None`. */
  datatype StopEvent = StopEvent(
    departureTimePlanned: Option<string>,
    departureTimeEstimated: Option<string>,
    transportation: Option<Transportation>)

  datatype Transportation = Transportation(number: Option<string>, destination: Option<Destination>)

  datatype Destination = Destination(name: Option<string>)

  datatype ApiResponse = ApiResponse(stopEvents: Option<seq<StopEvent>>)

  /** A normalised departure. `delayMinutes` is the estimate minus the plan
      in whole minutes. */
  datatype BusArrival = BusArrival(
    routeName: string,
    destination: string,
    scheduledTime: string,
    realTimeTime: string,
    delayMinutes: int)

  /** A remembered stop; `lastUsed` is the wall-clock time in milliseconds
      when it was added. */
  datatype BusStop = BusStop(id: string, name: Option<string>, lastUsed: int)

  datatype StopInfoResponse = StopInfoResponse(locations: Option<seq<StopLocation>>)

  datatype StopLocation = StopLocation(
    name: Option<string>,
    disassembledName: Option<string>,
    desc: Option<string>,
    id: Option<string>)

  /** One carousel page of up to three remembered stops. */
  datatype BusStopGroup = BusStopGroup(stops: seq<BusStop>) {
    /** `hasSecondStop`: the page has a stop at index 1. */
    predicate HasSecondStop()
      ensures HasSecondStop() ==> 1 < |stops|
      ensures !HasSecondStop() ==> |stops| <= 1
    {
      |stops| >= 2
    }

    /** `hasThirdStop`: the page has a stop at index 2, and so one at 1. */
    predicate HasThirdStop()
      ensures HasThirdStop() ==> HasSecondStop() && 2 < |stops|
      ensures !HasThirdStop() ==> |stops| <= 2
    {
      |stops| >= 3
    }
  }

  /** What the zone conversion of a time yields: whole minutes from now
      until it, and its local clock text, `None` when the formatter throws. */
  datatype InstantReading = InstantReading(minutesUntil: int, clockTime: Option<string>)

  /** The text handed to `Instant.parse`: read as UTC by appending `Z` when
      it has neither a `+` nor a `Z`. */
  function InstantText(t: string): (r: string)
    ensures '+' in t || 'Z' in t ==> r == t
    ensures !('+' in t || 'Z' in t) ==> r == t + "Z" && 'Z' in r
  {
    if '+' in t || 'Z' in t then t else t + "Z"
  }

  /** The label of the `when` over `minutesUntil`; `None` where formatting
      the clock time throws. */
  function TimeLabel(reading: InstantReading): (r: Option<string>)
    ensures reading.minutesUntil <= 0 ==> r == Some("Now")
    ensures reading.minutesUntil == 1 ==> r == Some("1 min")
    ensures 2 <= reading.minutesUntil < 60 ==> r == Some(NatToDecimal(reading.minutesUntil) + " mins")
    ensures reading.minutesUntil >= 60 ==> r == reading.clockTime
  {
    var m := reading.minutesUntil;
    if m <= 0 then Some("Now")
    else if m == 1 then Some("1 min")
    else if m < 60 then Some(NatToDecimal(m) + " mins")
    else reading.clockTime
  }

  /** The minutes label carries the number of minutes back: one or two
      digits that read as `minutesUntil`, then ` mins`. */
  lemma {:induction false} MinutesLabelReadsBack(reading: InstantReading)
    requires 2 <= reading.minutesUntil < 60
    ensures var shown := TimeLabel(reading).value;
      && 3 <= |shown| <= 7 && shown[|shown| - 5..] == " mins"
      && AllDigits(shown[..|shown| - 5])
      && DigitsValue(shown[..|shown| - 5]) == reading.minutesUntil
  {
    var m := reading.minutesUntil;
    var digits := NatToDecimal(m);
    NatToDecimalValue(m);
    if m < 10 {
      assert digits == [DigitChar(m)];
    } else {
      assert digits == NatToDecimal(m / 10) + [DigitChar(m % 10)];
      assert NatToDecimal(m / 10) == [DigitChar(m / 10)];
    }
    var shown := digits + " mins";
    assert shown[..|shown| - 5] == digits;
    assert shown[|shown| - 5..] == " mins";
  }

  /** The catch branch: the five characters after the first `T` of the text
      before the first `+`; `None` where fewer remain and `substring` throws. */
  function FallbackTime(t: string): (r: Option<string>)
    ensures r.Some? <==> |SubstringAfter(SubstringBefore(t, '+'), 'T')| >= 5
    ensures r.Some? ==> r.value == SubstringAfter(SubstringBefore(t, '+'), 'T')[..5]
  {
    var after := SubstringAfter(SubstringBefore(t, '+'), 'T');
    if |after| >= 5 then Some(after[..5]) else None
  }

  /** `getFormattedTime`: the label of the time when it reads as an instant
      and its label can be formatted, the fallback otherwise; `None` where
      the fallback itself throws. `readInstant` stands for `Instant.parse`,
      the Sydney zone and the clock, with `None` where the parse throws. */
  function FormattedTime(realTimeTime: string, readInstant: string -> Option<InstantReading>): (r: Option<string>)
    ensures readInstant(InstantText(realTimeTime)).Some? && TimeLabel(readInstant(InstantText(realTimeTime)).value).Some?
            ==> r == TimeLabel(readInstant(InstantText(realTimeTime)).value)
    ensures readInstant(InstantText(realTimeTime)).None? ==> r == FallbackTime(realTimeTime)
    ensures readInstant(InstantText(realTimeTime)).Some? && TimeLabel(readInstant(InstantText(realTimeTime)).value).None?
            ==> r == FallbackTime(realTimeTime)
  {
    match readInstant(InstantText(realTimeTime))
    case None => FallbackTime(realTimeTime)
    case Some(reading) =>
      match TimeLabel(reading)
      case Some(shown) => Some(shown)
      case None => FallbackTime(realTimeTime)
  }

  /** On the canonical text of a feed timestamp the fallback shows the local
      hour and minute written in it. */
  lemma FallbackOfTimestamp(t: DateTime)
    requires Valid(t)
    ensures FallbackTime(Format(t)) == Some(TwoDigits(t.hour) + ":" + TwoDigits(t.minute))
  {
    var h, sec := HeadText(t), SecondsText(t);
    HeadParts(t);
    SecondsHaveNoPlus(t);
    assert Format(t) == h[..10] + ['T'] + (h[11..] + sec) + OffsetText(t.offsetSeconds);
    FallbackOfParts(h[..10], h[11..], sec, OffsetText(t.offsetSeconds));
  }

  /** A date without `T` or `+`, a `T`, five clock characters and more text
      without `+` fall back to the clock, whatever follows. */
  lemma FallbackOfParts(date: string, clock: string, more: string, rest: string)
    requires 'T' !in date && '+' !in date && '+' !in clock && '+' !in more && |clock| == 5
    ensures FallbackTime(date + ['T'] + (clock + more) + rest) == Some(clock)
  {
    var x := date + ['T'] + (clock + more);
    var before := SubstringBefore(rest, '+');
    var after := clock + more + before;
    assert SubstringBefore(x + rest, '+') == date + ['T'] + after by {
      assert '+' !in x;
      SubstringBeforeAppend(x, rest, '+');
    }
    assert SubstringAfter(date + ['T'] + after, 'T') == after by {
      SubstringAfterFirst(date, after, 'T');
    }
    assert after[..5] == clock;
  }

  /** The head text is a date without `T` or `+`, the `T`, and the clock. */
  lemma HeadParts(t: DateTime)
    requires Valid(t)
    ensures var h := HeadText(t);
      && 'T' !in h[..10] && '+' !in h && h == h[..10] + ['T'] + h[11..]
      && h[11..] == TwoDigits(t.hour) + ":" + TwoDigits(t.minute)
  {
    var h := HeadText(t);
    assert h[..10] == FourDigits(t.year) + "-" + TwoDigits(t.month) + "-" + TwoDigits(t.day);
    assert h[11..] == TwoDigits(t.hour) + ":" + TwoDigits(t.minute);
    assert h == h[..10] + ['T'] + h[11..];
  }

  lemma SecondsHaveNoPlus(t: DateTime)
    requires Valid(t)
    ensures '+' !in SecondsText(t)
  {
    if t.nano != 0 {
      assert Pow10(9) == NanosPerSecond;
      PadDigitsValue(t.nano, 9);
      assert SecondsText(t) == ":" + TwoDigits(t.second) + "." + PadDigits(t.nano, 9);
    }
  }
}
