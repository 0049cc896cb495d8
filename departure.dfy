/**
 * The single-leg scheduler (`find_best_departure`): one provider query per
 * grid instant of the window, one record per instant that yields a trip,
 * and the record with the smallest duration, the earliest one on ties.
 */
module Departure {
  import opened Wrappers
  import opened Ranking
  import opened Window
  import opened Directions

  /** The per-instant record of the result list. */
  datatype LegRecord = LegRecord(
    departureTime: int,
    requestedTime: int,
    durationSeconds: int,
    durationText: string,
    routeSummary: string,
    actualDepartureText: Option<string>,
    arrivalText: Option<string>)

  /** The answer of `find_best_departure`. */
  datatype BestDeparture = BestDeparture(
    bestDeparture: Option<int>,
    minDurationSeconds: Option<int>,
    bestRouteSummary: Option<string>,
    results: seq<LegRecord>)

  /** The record for a trip found at a requested instant; it shows the provider's departure when there is one. */
  function RecordOf(requested: int, details: TripDetails): LegRecord
  {
    LegRecord(
      details.actualDeparture.GetOr(requested), requested, details.durationSeconds,
      details.durationText, details.routeSummary, details.actualDepartureText, details.arrivalText)
  }

  /** The records the loop appends while visiting `instants` in order. */
  function LegRecords(trips: Trips, origin: Place, destination: Place, instants: seq<int>): seq<LegRecord>
    decreases |instants|
  {
    if instants == [] then []
    else
      (match trips(origin, destination, instants[0])
       case None => []
       case Some(details) => [RecordOf(instants[0], details)])
      + LegRecords(trips, origin, destination, instants[1..])
  }

  /** The instants of `instants` at which the provider yields a trip, in order. */
  function Resolving(trips: Trips, origin: Place, destination: Place, instants: seq<int>): seq<int>
    decreases |instants|
  {
    if instants == [] then []
    else
      (if trips(origin, destination, instants[0]).Some? then [instants[0]] else [])
      + Resolving(trips, origin, destination, instants[1..])
  }

  /** The durations of the records, in order. */
  function RecordDurations(records: seq<LegRecord>): (ds: seq<int>)
    ensures |ds| == |records|
    ensures forall i :: 0 <= i < |records| ==> ds[i] == records[i].durationSeconds
  {
    seq(|records|, i requires 0 <= i < |records| => records[i].durationSeconds)
  }

  /** The provider's departure for the trip found at `requested`, if any. */
  function ActualDepartureAt(trips: Trips, origin: Place, destination: Place, requested: int): Option<int> {
    match trips(origin, destination, requested)
    case None => None
    case Some(details) => details.actualDeparture
  }

  /** `Resolving` keeps exactly the instants that yield a trip. */
  lemma {:induction false} ResolvingMembers(trips: Trips, origin: Place, destination: Place, instants: seq<int>)
    ensures forall t :: t in Resolving(trips, origin, destination, instants) <==>
      t in instants && trips(origin, destination, t).Some?
    decreases |instants|
  {
    if instants != [] {
      ResolvingMembers(trips, origin, destination, instants[1..]);
      assert instants == [instants[0]] + instants[1..];
    }
  }

  /** `Resolving` keeps the instants in order. */
  lemma {:induction false} ResolvingIncreasing(trips: Trips, origin: Place, destination: Place, instants: seq<int>)
    requires Increasing(instants)
    ensures Increasing(Resolving(trips, origin, destination, instants))
    decreases |instants|
  {
    if instants != [] {
      var rest := instants[1..];
      ResolvingIncreasing(trips, origin, destination, rest);
      ResolvingMembers(trips, origin, destination, rest);
      var r := Resolving(trips, origin, destination, instants);
      var head := if trips(origin, destination, instants[0]).Some? then [instants[0]] else [];
      var tail := Resolving(trips, origin, destination, rest);
      assert r == head + tail;
      forall t | t in tail ensures instants[0] < t {
        var j :| 0 <= j < |rest| && rest[j] == t;
        assert instants[j + 1] == t;
      }
      forall i, j | 0 <= i < j < |r| ensures r[i] < r[j] {
        if i < |head| {
          assert r[j] == tail[j - |head|] && r[j] in tail;
        } else {
          assert r[i] == tail[i - |head|] && r[j] == tail[j - |head|];
        }
      }
    }
  }

  /**
   * The records are those of the resolving instants, one each, in order:
   * each carries its grid instant as `requestedTime` and that instant's trip.
   */
  lemma {:induction false} LegRecordsFollowResolving(trips: Trips, origin: Place, destination: Place, instants: seq<int>)
    ensures var records := LegRecords(trips, origin, destination, instants);
      var times := Resolving(trips, origin, destination, instants);
      && |records| == |times|
      && forall j :: 0 <= j < |times| ==>
        && trips(origin, destination, times[j]).Some?
        && records[j] == RecordOf(times[j], trips(origin, destination, times[j]).value)
    decreases |instants|
  {
    if instants != [] {
      LegRecordsFollowResolving(trips, origin, destination, instants[1..]);
    }
  }

  /**
   * Tie-break: over a time-ordered list of instants, the first minimal record
   * has the smallest duration of every instant that yields a trip, and no
   * earlier instant yields a trip that fast.
   */
  lemma BestIsEarliestFastest(trips: Trips, origin: Place, destination: Place, instants: seq<int>)
    requires Increasing(instants)
    requires LegRecords(trips, origin, destination, instants) != []
    ensures var records := LegRecords(trips, origin, destination, instants);
      var best := records[FirstMin(RecordDurations(records))];
      && best.requestedTime in instants
      && forall t :: t in instants && trips(origin, destination, t).Some? ==>
        && best.durationSeconds <= trips(origin, destination, t).value.durationSeconds
        && (trips(origin, destination, t).value.durationSeconds == best.durationSeconds ==> best.requestedTime <= t)
  {
    var records := LegRecords(trips, origin, destination, instants);
    var times := Resolving(trips, origin, destination, instants);
    var k := FirstMin(RecordDurations(records));
    LegRecordsFollowResolving(trips, origin, destination, instants);
    ResolvingMembers(trips, origin, destination, instants);
    ResolvingIncreasing(trips, origin, destination, instants);
    assert times[k] in times;
    forall t | t in instants && trips(origin, destination, t).Some?
      ensures records[k].durationSeconds <= trips(origin, destination, t).value.durationSeconds
      ensures trips(origin, destination, t).value.durationSeconds == records[k].durationSeconds ==> records[k].requestedTime <= t
    {
      assert t in times;
      var j :| 0 <= j < |times| && times[j] == t;
      assert records[j].durationSeconds == trips(origin, destination, t).value.durationSeconds;
      if records[j].durationSeconds == records[k].durationSeconds && j != k {
        assert k < j;
      }
    }
  }

  /**
   * Each record is for a queried instant that yields a trip, and shows the
   * provider's departure for that trip when there is one, else the instant.
   */
  lemma RecordTimes(trips: Trips, origin: Place, destination: Place, instants: seq<int>, j: int)
    requires 0 <= j < |LegRecords(trips, origin, destination, instants)|
    ensures var r := LegRecords(trips, origin, destination, instants)[j];
      && r.requestedTime in instants
      && trips(origin, destination, r.requestedTime).Some?
      && r.durationSeconds == trips(origin, destination, r.requestedTime).value.durationSeconds
      && r.departureTime == ActualDepartureAt(trips, origin, destination, r.requestedTime).GetOr(r.requestedTime)
  {
    LegRecordsFollowResolving(trips, origin, destination, instants);
    ResolvingMembers(trips, origin, destination, instants);
    var times := Resolving(trips, origin, destination, instants);
    assert times[j] in times;
  }

  /** Appending a record appends its duration. */
  lemma RecordDurationsSnoc(records: seq<LegRecord>, r: LegRecord)
    ensures RecordDurations(records + [r]) == RecordDurations(records) + [r.durationSeconds]
  {
    assert RecordDurations(records + [r])[..|records|] == RecordDurations(records);
  }

  /** The records for instants paired with the answers found there (`None`: nothing found). */
  function Records(instants: seq<int>, answers: seq<Option<TripDetails>>): seq<LegRecord>
    requires |answers| == |instants|
    decreases |instants|
  {
    if instants == [] then []
    else
      (match answers[0]
       case None => []
       case Some(details) => [RecordOf(instants[0], details)])
      + Records(instants[1..], answers[1..])
  }

  /** Pairing one more instant with its trip appends that instant's record, if any. */
  lemma {:induction false} RecordsSnoc(instants: seq<int>, answers: seq<Option<TripDetails>>, t: int, trip: Option<TripDetails>)
    requires |answers| == |instants|
    ensures Records(instants + [t], answers + [trip]) ==
      Records(instants, answers) + (match trip case None => [] case Some(details) => [RecordOf(t, details)])
    decreases |instants|
  {
    if instants == [] {
      assert (instants + [t])[1..] == [];
      assert (answers + [trip])[1..] == [];
    } else {
      assert (instants + [t])[1..] == instants[1..] + [t];
      assert (answers + [trip])[1..] == answers[1..] + [trip];
      RecordsSnoc(instants[1..], answers[1..], t, trip);
    }
  }

  /** With the provider's trip at each instant, the paired records are the records of the walk. */
  lemma {:induction false} RecordsOfResolvedTrips(
    trips: Trips, origin: Place, destination: Place, instants: seq<int>, answers: seq<Option<TripDetails>>)
    requires |answers| == |instants|
    requires forall i :: 0 <= i < |answers| ==> answers[i] == trips(origin, destination, instants[i])
    ensures Records(instants, answers) == LegRecords(trips, origin, destination, instants)
    decreases |instants|
  {
    if instants != [] {
      RecordsOfResolvedTrips(trips, origin, destination, instants[1..], answers[1..]);
    }
  }

  /**
   * The best departure can be absent while a minimum duration is reported: a
   * trip whose leg has no departure timestamp leaves `best_departure` null.
   */
  lemma BestDepartureMayBeAbsent()
    ensures var provider: Provider := (o, d, t) => Some([Route([Leg(600, "10 mins", [], None, None)])]);
      && LegRecords(TripsOf(provider), "home", "work", Grid(0, 0, 900)) != []
      && ActualDepartureAt(TripsOf(provider), "home", "work", 0) == None
  {
    var provider: Provider := (o, d, t) => Some([Route([Leg(600, "10 mins", [], None, None)])]);
    var routes := [Route([Leg(600, "10 mins", [], None, None)])];
    assert Durations(routes) == [600];
    assert Labels([]) == Some([]);
    assert Resolve(provider, "home", "work", 0).Some?;
    assert Grid(0, 0, 900) == [0];
  }

  /** The loop state of `find_best_departure`: the records so far, the running minimum and the trip that set it. */
  datatype Progress = Progress(results: seq<LegRecord>, minDuration: Option<int>, bestDetails: Option<TripDetails>)

  /** One iteration: a trip found at `t` is recorded and replaces the best one only when strictly faster. */
  function Visit(p: Progress, t: int, trip: Option<TripDetails>): Progress {
    match trip
    case None => p
    case Some(details) =>
      var results := p.results + [RecordOf(t, details)];
      if p.minDuration.None? || details.durationSeconds < p.minDuration.value
      then Progress(results, Some(details.durationSeconds), trip)
      else Progress(results, p.minDuration, p.bestDetails)
  }

  /** The loop state after visiting `instants`, with `answers[i]` the trip found at `instants[i]`. */
  function Scan(instants: seq<int>, answers: seq<Option<TripDetails>>): Progress
    requires |answers| == |instants|
    decreases |instants|
  {
    if instants == [] then Progress([], None, None)
    else
      var n := |instants| - 1;
      Visit(Scan(instants[..n], answers[..n]), instants[n], answers[n])
  }

  /** The loop state holds the records of the walk. */
  lemma {:induction false} ScanRecords(instants: seq<int>, answers: seq<Option<TripDetails>>)
    requires |answers| == |instants|
    ensures Scan(instants, answers).results == Records(instants, answers)
    decreases |instants|
  {
    if instants != [] {
      var n := |instants| - 1;
      ScanRecords(instants[..n], answers[..n]);
      assert instants == instants[..n] + [instants[n]];
      assert answers == answers[..n] + [answers[n]];
      RecordsSnoc(instants[..n], answers[..n], instants[n], answers[n]);
    }
  }

  /** There is a minimum, and a trip that set it, exactly when there is a record. */
  lemma {:induction false} ScanEmpty(instants: seq<int>, answers: seq<Option<TripDetails>>)
    requires |answers| == |instants|
    ensures var p := Scan(instants, answers);
      && (p.results == [] <==> p.minDuration.None?)
      && (p.results == [] <==> p.bestDetails.None?)
    decreases |instants|
  {
    if instants != [] {
      var n := |instants| - 1;
      ScanEmpty(instants[..n], answers[..n]);
    }
  }

  /**
   * The running minimum is the first record of smallest duration: the state
   * holds its duration, its summary and the trip found at its instant.
   */
  lemma {:induction false} ScanBest(instants: seq<int>, answers: seq<Option<TripDetails>>)
    requires |answers| == |instants|
    ensures var p := Scan(instants, answers);
      p.results != [] ==>
        var best := p.results[FirstMin(RecordDurations(p.results))];
        && p.minDuration == Some(best.durationSeconds)
        && p.bestDetails.Some? && p.bestDetails.value.routeSummary == best.routeSummary
        && exists j :: 0 <= j < |instants| && instants[j] == best.requestedTime && answers[j] == p.bestDetails
    decreases |instants|
  {
    if instants != [] && answers[|instants| - 1].Some? {
      var n := |instants| - 1;
      var before, after := Scan(instants[..n], answers[..n]), Scan(instants, answers);
      ScanBest(instants[..n], answers[..n]);
      ScanEmpty(instants[..n], answers[..n]);
      var r := RecordOf(instants[n], answers[n].value);
      var ds := RecordDurations(before.results);
      RecordDurationsSnoc(before.results, r);
      assert (ds + [r.durationSeconds])[..|ds|] == ds;
      var k := FirstMin(RecordDurations(after.results));
      if k == |before.results| {
        assert after.results[k] == r;
        assert instants[n] == after.results[k].requestedTime && answers[n] == after.bestDetails;
      } else {
        assert k == FirstMin(ds) && after.results[k] == before.results[k];
        var j :| 0 <= j < n && instants[..n][j] == before.results[k].requestedTime && answers[..n][j] == before.bestDetails;
        assert instants[j] == after.results[k].requestedTime && answers[j] == after.bestDetails;
      }
    } else if instants != [] {
      var n := |instants| - 1;
      var p := Scan(instants[..n], answers[..n]);
      ScanBest(instants[..n], answers[..n]);
      if p.results != [] {
        var best := p.results[FirstMin(RecordDurations(p.results))];
        var j :| 0 <= j < n && instants[..n][j] == best.requestedTime && answers[..n][j] == p.bestDetails;
        assert instants[j] == best.requestedTime && answers[j] == p.bestDetails;
      }
    }
  }

  /**
   * The loop of `find_best_departure`: walks the grid `window_start,
   * window_start + interval, ...` while not past `window_end`, queries the
   * provider at each instant, appends a record per trip found and keeps the
   * running minimum. `queried` lists the instants queried, in order, and
   * `answers` what the provider gave at each.
   */
  method WalkWindow(
    provider: Provider, ghost trips: Trips, origin: Place, destination: Place,
    windowStart: int, windowEnd: int, step: int)
    returns (results: seq<LegRecord>, minDuration: Option<int>, bestDetails: Option<TripDetails>,
      ghost queried: seq<int>, ghost answers: seq<Option<TripDetails>>)
    requires TripsOfProvider(trips, provider)
    requires step > 0
    ensures queried == Grid(windowStart, windowEnd, step)
    ensures |answers| == |queried|
    ensures forall i :: 0 <= i < |answers| ==> answers[i] == trips(origin, destination, queried[i])
    ensures Progress(results, minDuration, bestDetails) == Scan(queried, answers)
  {
    ghost var grid := Grid(windowStart, windowEnd, step);
    minDuration := None;  // `None` plays float('inf')
    bestDetails := None;
    results := [];
    var currentTime := windowStart;
    queried := [];
    answers := [];
    while currentTime <= windowEnd
      invariant queried + Grid(currentTime, windowEnd, step) == grid
      invariant |answers| == |queried|
      invariant forall i :: 0 <= i < |answers| ==> answers[i] == trips(origin, destination, queried[i])
      invariant Progress(results, minDuration, bestDetails) == Scan(queried, answers)
      decreases windowEnd - currentTime
    {
      GridWalk(queried, currentTime, windowEnd, step, grid);
      var details := FetchTrip(provider, trips, origin, destination, currentTime);
      if details.Some? {
        results := results + [RecordOf(currentTime, details.value)];
        if minDuration.None? || details.value.durationSeconds < minDuration.value {
          minDuration := Some(details.value.durationSeconds);
          bestDetails := details;
        }
      }
      assert (queried + [currentTime])[..|queried|] == queried;
      assert (answers + [details])[..|answers|] == answers;
      queried := queried + [currentTime];
      answers := answers + [details];
      currentTime := currentTime + step;
    }
    GridWalk(queried, currentTime, windowEnd, step, grid);
  }

  /**
   * `find_best_departure`: the records of the walk over the window and the
   * first record of smallest duration, with its provider departure. `trips`
   * stands for the provider's trips.
   */
  method FindBestDeparture(
    provider: Provider, ghost trips: Trips, origin: Place, destination: Place,
    windowStart: int, windowEnd: int, intervalMinutes: int)
    returns (result: BestDeparture, ghost queried: seq<int>)
    requires TripsOfProvider(trips, provider)
    requires intervalMinutes > 0
    ensures queried == Grid(windowStart, windowEnd, 60 * intervalMinutes)
    ensures result.results == LegRecords(trips, origin, destination, queried)
    ensures result.minDurationSeconds.None? <==> result.results == []
    ensures result.results == [] ==> result.bestDeparture.None? && result.bestRouteSummary.None?
    ensures result.results != [] ==>
      var best := result.results[FirstMin(RecordDurations(result.results))];
      && result.minDurationSeconds == Some(best.durationSeconds)
      && result.bestRouteSummary == Some(best.routeSummary)
      && result.bestDeparture == ActualDepartureAt(trips, origin, destination, best.requestedTime)
  {
    var results, minDuration, bestDetails;
    ghost var answers;
    results, minDuration, bestDetails, queried, answers :=
      WalkWindow(provider, trips, origin, destination, windowStart, windowEnd, 60 * intervalMinutes);
    RecordsOfResolvedTrips(trips, origin, destination, queried, answers);
    ScanRecords(queried, answers);
    ScanEmpty(queried, answers);
    ScanBest(queried, answers);
    // `best_time` is set together with `best_details`, so the fallback to it
    // at the return statement can never be taken.
    result := BestDeparture(
      if bestDetails.Some? then bestDetails.value.actualDeparture else None,
      minDuration,
      if bestDetails.Some? then Some(bestDetails.value.routeSummary) else None,
      results);
  }
}
