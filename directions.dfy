/**
 * The routing client adapter (`GoogleMapsClient.get_trip_details`): one
 * directions query with alternatives, reduced to the fastest route's first
 * leg and a one-line summary of its steps. The provider itself is a
 * parameter: a function from (origin, destination, departure instant) to
 * its list of routes, or `None` when the call raises.
 */
module Directions {
  import opened Wrappers
  import opened Text
  import opened Ranking

  type Place = string

  /** Transit metadata of a step: the line's short name (the provider may omit it) and its vehicle. */
  datatype TransitLine = TransitLine(shortName: Option<string>, vehicleName: string)

  /** One step of a leg: its HTML instruction text and, for a ride, its transit line. */
  datatype Step = Step(htmlInstructions: string, transit: Option<TransitLine>)

  /** A provider timestamp: display text and the instant in seconds. */
  datatype Stamp = Stamp(text: string, instant: int)

  datatype Leg = Leg(
    durationSeconds: int,
    durationText: string,
    steps: seq<Step>,
    departureTime: Option<Stamp>,
    arrivalTime: Option<Stamp>)

  /** A route as returned by the provider; its first leg is the one the engine reads. */
  datatype Route = Route(legs: seq<Leg>)

  /** The directions call: `None` when it raises, otherwise the (possibly empty) list of routes. */
  type Provider = (Place, Place, int) -> Option<seq<Route>>

  /** The normalised trip record the schedulers consume. */
  datatype TripDetails = TripDetails(
    durationSeconds: int,
    durationText: string,
    routeSummary: string,
    steps: seq<string>,
    actualDepartureText: Option<string>,
    actualDeparture: Option<int>,
    arrivalText: Option<string>,
    arrival: Option<int>)

  /** The separator between step labels in a route summary. */
  const Arrow := " -> "

  /**
   * Instruction text with `<b>` and `</b>` removed, then one left-to-right
   * pass turning each pair of spaces into one.
   */
  function Clean(instructions: string): (r: string)
    ensures |r| <= |instructions|
  {
    var noOpen := Replace(instructions, "<b>", "");
    var noClose := Replace(noOpen, "</b>", "");
    ReplaceNotLonger(instructions, "<b>", "");
    ReplaceNotLonger(noOpen, "</b>", "");
    ReplaceNotLonger(noClose, "  ", " ");
    Replace(noClose, "  ", " ")
  }

  /** Text without bold tags and without double spaces is already clean. */
  lemma CleanKeepsPlainText(s: string)
    requires !Contains(s, "<b>") && !Contains(s, "</b>") && !Contains(s, "  ")
    ensures Clean(s) == s
  {
    ReplaceAbsent(s, "<b>", "");
    ReplaceAbsent(s, "</b>", "");
    ReplaceAbsent(s, "  ", " ");
  }

  /**
   * The label of one step: `"<vehicle> <line>"` for a ride, otherwise
   * `"Walk"` or the cleaned instruction text. `None` when a ride's line has
   * no short name (the lookup of `short_name` raises).
   */
  function StepLabel(step: Step): (r: Option<string>)
    ensures step.transit.Some? ==> (r.Some? <==> step.transit.value.shortName.Some?)
    ensures step.transit.Some? && r.Some? ==>
      r.value == step.transit.value.vehicleName + " " + step.transit.value.shortName.value
    ensures step.transit.None? ==> r.Some?
    ensures step.transit.None? ==> (r.value == "Walk" <==> Contains(Clean(step.htmlInstructions), "Walk"))
    ensures step.transit.None? && r.value != "Walk" ==> r.value == Clean(step.htmlInstructions)
  {
    match step.transit
    case Some(line) =>
      if line.shortName.Some? then Some(line.vehicleName + " " + line.shortName.value) else None
    case None =>
      var clean := Clean(step.htmlInstructions);
      assert StartsWith("Walk", "Walk");
      Some(if Contains(clean, "Walk") then "Walk" else clean)
  }

  /** One label per step, in step order; `None` if any step has no label. */
  function Labels(steps: seq<Step>): (r: Option<seq<string>>)
    ensures r.Some? <==> forall i :: 0 <= i < |steps| ==> StepLabel(steps[i]).Some?
    ensures r.Some? ==> |r.value| == |steps|
    ensures r.Some? ==> forall i :: 0 <= i < |steps| ==> StepLabel(steps[i]) == Some(r.value[i])
  {
    if forall i :: 0 <= i < |steps| ==> StepLabel(steps[i]).Some? then
      Some(seq(|steps|, i requires 0 <= i < |steps| => StepLabel(steps[i]).value))
    else None
  }

  /** Every route has a first leg (otherwise reading `legs[0]` raises). */
  predicate HasLegs(routes: seq<Route>) {
    forall i :: 0 <= i < |routes| ==> routes[i].legs != []
  }

  /** The first-leg durations of the routes, in provider order. */
  function Durations(routes: seq<Route>): (ds: seq<int>)
    requires HasLegs(routes)
    ensures |ds| == |routes|
    ensures forall i :: 0 <= i < |routes| ==> ds[i] == routes[i].legs[0].durationSeconds
  {
    seq(|routes|, i requires 0 <= i < |routes| => routes[i].legs[0].durationSeconds)
  }

  /** The text and instant of an optional timestamp. */
  function StampText(s: Option<Stamp>): Option<string> {
    if s.Some? then Some(s.value.text) else None
  }

  function StampInstant(s: Option<Stamp>): Option<int> {
    if s.Some? then Some(s.value.instant) else None
  }

  /**
   * What `get_trip_details` returns for a provider answer: the record of the
   * first route with the smallest first-leg duration, or `None`.
   */
  function Normalize(answer: Option<seq<Route>>): (r: Option<TripDetails>)
    // absence: a failed call or an empty answer is never a record
    ensures answer.None? || answer.value == [] ==> r.None?
    // a record exists exactly when nothing raises while reading the answer
    ensures r.Some? <==>
      answer.Some? && answer.value != [] && HasLegs(answer.value) &&
      Labels(answer.value[FirstMin(Durations(answer.value))].legs[0].steps).Some?
    // the record's duration is the smallest of all returned routes
    ensures r.Some? ==> forall i :: 0 <= i < |answer.value| ==>
      r.value.durationSeconds <= answer.value[i].legs[0].durationSeconds
    ensures r.Some? ==> r.value.routeSummary == Join(Arrow, r.value.steps)
  {
    match answer
    case None => None
    case Some(routes) =>
      if routes == [] || !HasLegs(routes) then None
      else
        var leg := routes[FirstMin(Durations(routes))].legs[0];
        match Labels(leg.steps)
        case None => None
        case Some(labels) =>
          Some(TripDetails(
            leg.durationSeconds, leg.durationText, Join(Arrow, labels), labels,
            StampText(leg.departureTime), StampInstant(leg.departureTime),
            StampText(leg.arrivalTime), StampInstant(leg.arrivalTime)))
  }

  /** The trip the provider gives for one query. */
  function Resolve(provider: Provider, origin: Place, destination: Place, departure: int): Option<TripDetails> {
    Normalize(provider(origin, destination, departure))
  }

  /** What `get_trip_details` gives for every origin, destination and departure instant. */
  type Trips = (Place, Place, int) -> Option<TripDetails>

  /** The trips of a provider. */
  function TripsOf(provider: Provider): Trips {
    (origin, destination, departure) => Resolve(provider, origin, destination, departure)
  }

  /** `trips` are the trips of `provider`. */
  ghost predicate TripsOfProvider(trips: Trips, provider: Provider) {
    forall o, d, t {:trigger Resolve(provider, o, d, t)} :: trips(o, d, t) == Resolve(provider, o, d, t)
  }

  /** Route `k` is the first of the routes with the smallest first-leg duration. */
  predicate FirstFastest(routes: seq<Route>, k: int)
    requires HasLegs(routes)
  {
    && 0 <= k < |routes|
    && (forall i :: 0 <= i < |routes| ==> routes[k].legs[0].durationSeconds <= routes[i].legs[0].durationSeconds)
    && (forall i :: 0 <= i < k ==> routes[k].legs[0].durationSeconds < routes[i].legs[0].durationSeconds)
  }

  /** The record describes `leg`: its duration, its steps' labels, its timestamps. */
  predicate DescribesLeg(d: TripDetails, leg: Leg) {
    && d.durationSeconds == leg.durationSeconds
    && d.durationText == leg.durationText
    && Labels(leg.steps) == Some(d.steps)
    && d.routeSummary == Join(Arrow, d.steps)
    && d.actualDepartureText == StampText(leg.departureTime)
    && d.actualDeparture == StampInstant(leg.departureTime)
    && d.arrivalText == StampText(leg.arrivalTime)
    && d.arrival == StampInstant(leg.arrivalTime)
  }

  /**
   * Route choice: a record always describes the first leg of the first route,
   * in provider order, whose duration is the minimum (strict `<` keeps the
   * earlier of equal routes).
   */
  lemma RouteChoice(routes: seq<Route>, d: TripDetails)
    requires Normalize(Some(routes)) == Some(d)
    ensures HasLegs(routes)
    ensures exists k :: FirstFastest(routes, k) && DescribesLeg(d, routes[k].legs[0])
  {
    var k := FirstMin(Durations(routes));
    assert FirstFastest(routes, k);
    assert DescribesLeg(d, routes[k].legs[0]);
  }

  /**
   * Step summary: a record has one label per step of the leg it describes,
   * in step order, and its summary mentions every label.
   */
  lemma StepSummary(leg: Leg, d: TripDetails)
    requires DescribesLeg(d, leg)
    ensures |d.steps| == |leg.steps|
    ensures forall i :: 0 <= i < |d.steps| ==> StepLabel(leg.steps[i]) == Some(d.steps[i])
    ensures forall i :: 0 <= i < |d.steps| ==> Contains(d.routeSummary, d.steps[i])
  {
    forall i | 0 <= i < |d.steps| ensures Contains(d.routeSummary, d.steps[i]) {
      JoinMentionsEveryPart(Arrow, d.steps, i);
    }
  }

  /**
   * `get_trip_details`: queries the provider once, keeps the first route with
   * the smallest first-leg duration (a running minimum with strict `<`), and
   * labels that leg's steps one by one. Anything that raises gives `None`.
   */
  method GetTripDetails(provider: Provider, origin: Place, destination: Place, departure: int)
    returns (details: Option<TripDetails>)
    ensures details == Resolve(provider, origin, destination, departure)
  {
    var answer := provider(origin, destination, departure);
    if answer.None? || answer.value == [] {
      return None;
    }
    var routes := answer.value;
    var best := 0;
    var minRouteDuration: Option<int> := None;  // `None` plays float('inf')
    for i := 0 to |routes|
      invariant forall j :: 0 <= j < i ==> routes[j].legs != []
      invariant minRouteDuration.None? <==> i == 0
      invariant i > 0 ==> best < i && minRouteDuration == Some(routes[best].legs[0].durationSeconds)
      invariant i > 0 ==> forall j :: 0 <= j < i ==> routes[best].legs[0].durationSeconds <= routes[j].legs[0].durationSeconds
      invariant i > 0 ==> forall j :: 0 <= j < best ==> routes[best].legs[0].durationSeconds < routes[j].legs[0].durationSeconds
    {
      if routes[i].legs == [] {
        return None;  // `route['legs'][0]` raises
      }
      var duration := routes[i].legs[0].durationSeconds;
      if minRouteDuration.None? || duration < minRouteDuration.value {
        minRouteDuration := Some(duration);
        best := i;
      }
    }
    FirstMinUnique(Durations(routes), best);
    var leg := routes[best].legs[0];

    var stepsSummary: seq<string> := [];
    for k := 0 to |leg.steps|
      invariant |stepsSummary| == k
      invariant forall j :: 0 <= j < k ==> StepLabel(leg.steps[j]) == Some(stepsSummary[j])
    {
      var step := leg.steps[k];
      if step.transit.Some? {
        var line := step.transit.value;
        if line.shortName.None? {
          return None;  // `['short_name']` raises
        }
        stepsSummary := stepsSummary + [line.vehicleName + " " + line.shortName.value];
      } else {
        var cleanInstr := Clean(step.htmlInstructions);
        if Contains(cleanInstr, "Walk") {
          stepsSummary := stepsSummary + ["Walk"];
        } else {
          stepsSummary := stepsSummary + [cleanInstr];
        }
      }
    }
    assert Labels(leg.steps).Some?;
    assert Labels(leg.steps).value == stepsSummary;
    var routeSummary := Join(Arrow, stepsSummary);

    var actualDepartureText: Option<string> := None;
    var actualDepartureIso: Option<int> := None;
    var arrivalText: Option<string> := None;
    var arrivalIso: Option<int> := None;
    if leg.departureTime.Some? {
      actualDepartureText := Some(leg.departureTime.value.text);
      actualDepartureIso := Some(leg.departureTime.value.instant);
    }
    if leg.arrivalTime.Some? {
      arrivalText := Some(leg.arrivalTime.value.text);
      arrivalIso := Some(leg.arrivalTime.value.instant);
    }
    details := Some(TripDetails(
      leg.durationSeconds, leg.durationText, routeSummary, stepsSummary,
      actualDepartureText, actualDepartureIso, arrivalText, arrivalIso));
  }

  /**
   * A call to `get_trip_details` seen by the schedulers: `trips` stands for
   * the provider's trips, so that callers reason about the answer without
   * unfolding how it is computed.
   */
  method FetchTrip(provider: Provider, ghost trips: Trips, origin: Place, destination: Place, departure: int)
    returns (details: Option<TripDetails>)
    requires TripsOfProvider(trips, provider)
    ensures details == trips(origin, destination, departure)
  {
    details := GetTripDetails(provider, origin, destination, departure);
  }
}
