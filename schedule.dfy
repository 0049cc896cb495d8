/**
 * The round-trip scheduler (`optimize_work_schedule`): for every origin and
 * every grid instant of the window, a trip to work, a stay of the working
 * time, and a trip back home; the schedules found are ranked by total
 * commute time, least first.
 */
module Schedule {
  import opened Wrappers
  import opened Text
  import opened Ranking
  import opened Window
  import opened Directions

  /** One directions request: from, to, and the departure instant asked for. */
  datatype Query = Query(origin: Place, destination: Place, departure: int)

  /** One candidate schedule: the trip to work, the stay, and the trip home. */
  datatype Schedule = Schedule(
    origin: Place,
    departureToWork: int,
    durationToWork: int,
    routeToWork: string,
    leaveWorkTime: int,
    durationToHome: int,
    routeToHome: string,
    totalCommuteSeconds: int,
    totalCommuteText: string)

  /** The answer of `optimize_work_schedule`. */
  datatype WorkSchedule = WorkSchedule(bestSchedule: Option<Schedule>, results: seq<Schedule>)

  /** The ranking key of a schedule. */
  function TotalOf(s: Schedule): int {
    s.totalCommuteSeconds
  }

  /** The total shown in whole minutes, rounded down (Python's `//`), followed by `" mins"`. */
  function TotalText(total: int): string {
    ShowInt(total / 60) + " mins"
  }

  /**
   * The schedule starting at the requested instant `t`, if both legs are
   * found. Work is left `workSeconds` after the requested departure plus the
   * trip's duration; departures show the provider's instant when it has one.
   */
  function CandidateAt(trips: Trips, origin: Place, destination: Place, workSeconds: int, t: int): Option<Schedule> {
    match trips(origin, destination, t)
    case None => None
    case Some(toWork) =>
      var leave := t + toWork.durationSeconds + workSeconds;
      match trips(destination, origin, leave)
      case None => None
      case Some(toHome) =>
        var total := toWork.durationSeconds + toHome.durationSeconds;
        Some(Schedule(
          origin,
          toWork.actualDeparture.GetOr(t), toWork.durationSeconds, toWork.routeSummary,
          toHome.actualDeparture.GetOr(leave), toHome.durationSeconds, toHome.routeSummary,
          total, TotalText(total)))
  }

  /** The schedules found from one origin, in the order of `instants`. */
  function Candidates(trips: Trips, origin: Place, destination: Place, workSeconds: int, instants: seq<int>): seq<Schedule>
    decreases |instants|
  {
    if instants == [] then []
    else
      var n := |instants| - 1;
      Candidates(trips, origin, destination, workSeconds, instants[..n])
      + (match CandidateAt(trips, origin, destination, workSeconds, instants[n])
         case None => []
         case Some(s) => [s])
  }

  /** All schedules found, origin by origin and, within an origin, instant by instant. */
  function Generated(trips: Trips, origins: seq<Place>, destination: Place, workSeconds: int, instants: seq<int>): seq<Schedule>
    decreases |origins|
  {
    if origins == [] then []
    else
      var n := |origins| - 1;
      Generated(trips, origins[..n], destination, workSeconds, instants)
      + Candidates(trips, origins[n], destination, workSeconds, instants)
  }

  /** The instants of `instants` at which both legs are found, in order. */
  function BothResolve(trips: Trips, origin: Place, destination: Place, workSeconds: int, instants: seq<int>): seq<int>
    decreases |instants|
  {
    if instants == [] then []
    else
      var n := |instants| - 1;
      BothResolve(trips, origin, destination, workSeconds, instants[..n])
      + (if CandidateAt(trips, origin, destination, workSeconds, instants[n]).Some? then [instants[n]] else [])
  }

  /** Each instant paired with its origin. */
  function Tagged(origin: Place, instants: seq<int>): (r: seq<(Place, int)>)
    ensures |r| == |instants|
    ensures forall i :: 0 <= i < |instants| ==> r[i] == (origin, instants[i])
  {
    seq(|instants|, i requires 0 <= i < |instants| => (origin, instants[i]))
  }

  /** The (origin, instant) pairs at which both legs are found, origin-major, then in instant order. */
  function BothResolvePairs(trips: Trips, origins: seq<Place>, destination: Place, workSeconds: int, instants: seq<int>): seq<(Place, int)>
    decreases |origins|
  {
    if origins == [] then []
    else
      var n := |origins| - 1;
      BothResolvePairs(trips, origins[..n], destination, workSeconds, instants)
      + Tagged(origins[n], BothResolve(trips, origins[n], destination, workSeconds, instants))
  }

  /**
   * The queries one pass of the inner loop issues at `t`: the trip to work,
   * then, only if that one is found, the trip home.
   */
  function PassQueries(trips: Trips, origin: Place, destination: Place, workSeconds: int, t: int): seq<Query> {
    match trips(origin, destination, t)
    case None => [Query(origin, destination, t)]
    case Some(toWork) => [Query(origin, destination, t), Query(destination, origin, t + toWork.durationSeconds + workSeconds)]
  }

  /** The queries for one origin, pass after pass over `instants`. */
  function WindowQueries(trips: Trips, origin: Place, destination: Place, workSeconds: int, instants: seq<int>): seq<Query>
    decreases |instants|
  {
    if instants == [] then []
    else
      var n := |instants| - 1;
      WindowQueries(trips, origin, destination, workSeconds, instants[..n])
      + PassQueries(trips, origin, destination, workSeconds, instants[n])
  }

  /** The queries for all origins, origin after origin. */
  function AllQueries(trips: Trips, origins: seq<Place>, destination: Place, workSeconds: int, instants: seq<int>): seq<Query>
    decreases |origins|
  {
    if origins == [] then []
    else
      var n := |origins| - 1;
      AllQueries(trips, origins[..n], destination, workSeconds, instants)
      + WindowQueries(trips, origins[n], destination, workSeconds, instants)
  }

  /**
   * A schedule exists exactly when both legs are found, the way home being
   * asked for at the requested departure plus the outbound duration plus the
   * working time; its total is the sum of the two legs' durations.
   */
  lemma CandidateChaining(trips: Trips, origin: Place, destination: Place, workSeconds: int, t: int)
    ensures CandidateAt(trips, origin, destination, workSeconds, t).Some? <==>
      && trips(origin, destination, t).Some?
      && trips(destination, origin, t + trips(origin, destination, t).value.durationSeconds + workSeconds).Some?
    ensures CandidateAt(trips, origin, destination, workSeconds, t).Some? ==>
      var s := CandidateAt(trips, origin, destination, workSeconds, t).value;
      var toWork := trips(origin, destination, t).value;
      var toHome := trips(destination, origin, t + toWork.durationSeconds + workSeconds).value;
      && s.origin == origin
      && s.durationToWork == toWork.durationSeconds && s.routeToWork == toWork.routeSummary
      && s.durationToHome == toHome.durationSeconds && s.routeToHome == toHome.routeSummary
      && s.totalCommuteSeconds == s.durationToWork + s.durationToHome
      && s.totalCommuteText == TotalText(s.totalCommuteSeconds)
  {
  }

  /**
   * The total is shown in whole minutes rounded down: reading back the
   * number before `" mins"` gives `m` with `60 * m <= total < 60 * m + 60`.
   */
  lemma TotalTextMinutes(total: int)
    ensures var text := TotalText(total);
      && |text| >= 5 && text[|text| - 5..] == " mins"
      && var m := ParseInt(text[..|text| - 5]);
      60 * m <= total < 60 * m + 60
  {
    var digits := ShowInt(total / 60);
    var text := TotalText(total);
    assert text[..|text| - 5] == digits;
    ParseShowInt(total / 60);
  }

  /** Visiting one more instant appends its schedule, if any. */
  lemma CandidatesSnoc(trips: Trips, origin: Place, destination: Place, workSeconds: int, instants: seq<int>, t: int)
    ensures Candidates(trips, origin, destination, workSeconds, instants + [t]) ==
      Candidates(trips, origin, destination, workSeconds, instants)
      + (match CandidateAt(trips, origin, destination, workSeconds, t) case None => [] case Some(s) => [s])
  {
    assert (instants + [t])[..|instants|] == instants;
  }

  /** The schedules from one origin are exactly those found at its instants, and there are no more of them than instants. */
  lemma CandidatesMembers(trips: Trips, origin: Place, destination: Place, workSeconds: int, instants: seq<int>)
    ensures |Candidates(trips, origin, destination, workSeconds, instants)| <= |instants|
    ensures forall s :: s in Candidates(trips, origin, destination, workSeconds, instants) <==>
      exists t :: t in instants && CandidateAt(trips, origin, destination, workSeconds, t) == Some(s)
  {
    CandidatesLength(trips, origin, destination, workSeconds, instants);
    forall s ensures s in Candidates(trips, origin, destination, workSeconds, instants) <==>
      exists t :: t in instants && CandidateAt(trips, origin, destination, workSeconds, t) == Some(s)
    {
      CandidateMember(trips, origin, destination, workSeconds, instants, s);
    }
  }

  /** Each instant adds at most one schedule. */
  lemma {:induction false} CandidatesLength(trips: Trips, origin: Place, destination: Place, workSeconds: int, instants: seq<int>)
    ensures |Candidates(trips, origin, destination, workSeconds, instants)| <= |instants|
    decreases |instants|
  {
    if instants != [] {
      CandidatesLength(trips, origin, destination, workSeconds, instants[..|instants| - 1]);
    }
  }

  /** `CandidatesMembers` for one schedule, by induction on the instants. */
  lemma {:induction false} CandidateMember(
    trips: Trips, origin: Place, destination: Place, workSeconds: int, instants: seq<int>, s: Schedule)
    ensures s in Candidates(trips, origin, destination, workSeconds, instants) <==>
      exists t :: t in instants && CandidateAt(trips, origin, destination, workSeconds, t) == Some(s)
    decreases |instants|
  {
    if instants != [] {
      var n := |instants| - 1;
      var init, last := instants[..n], instants[n];
      CandidateMember(trips, origin, destination, workSeconds, init, s);
      assert instants == init + [last];
      CandidatesSnoc(trips, origin, destination, workSeconds, init, last);
      CandidateSnocMember(trips, origin, destination, workSeconds, init, last, s);
    }
  }

  /** The step of `CandidateMember`: a schedule found over one more instant. */
  lemma CandidateSnocMember(
    trips: Trips, origin: Place, destination: Place, workSeconds: int, init: seq<int>, last: int, s: Schedule)
    requires s in Candidates(trips, origin, destination, workSeconds, init) <==>
      exists t :: t in init && CandidateAt(trips, origin, destination, workSeconds, t) == Some(s)
    requires Candidates(trips, origin, destination, workSeconds, init + [last]) ==
      Candidates(trips, origin, destination, workSeconds, init)
      + (match CandidateAt(trips, origin, destination, workSeconds, last) case None => [] case Some(x) => [x])
    ensures s in Candidates(trips, origin, destination, workSeconds, init + [last]) <==>
      exists t :: t in init + [last] && CandidateAt(trips, origin, destination, workSeconds, t) == Some(s)
  {
    var instants := init + [last];
    if t :| t in instants && CandidateAt(trips, origin, destination, workSeconds, t) == Some(s) {
      if t != last {
        assert t in init;
      }
    }
    if s in Candidates(trips, origin, destination, workSeconds, init) {
      var t :| t in init && CandidateAt(trips, origin, destination, workSeconds, t) == Some(s);
      assert t in instants;
    }
  }

  /** Every schedule generated comes from one of the origins at one of the instants, and each such schedule is generated. */
  lemma GeneratedMembers(trips: Trips, origins: seq<Place>, destination: Place, workSeconds: int, instants: seq<int>)
    ensures forall s :: s in Generated(trips, origins, destination, workSeconds, instants) <==>
      exists o, t :: o in origins && t in instants && CandidateAt(trips, o, destination, workSeconds, t) == Some(s)
  {
    forall s ensures s in Generated(trips, origins, destination, workSeconds, instants) <==>
      exists o, t :: o in origins && t in instants && CandidateAt(trips, o, destination, workSeconds, t) == Some(s)
    {
      GeneratedMember(trips, origins, destination, workSeconds, instants, s);
    }
  }

  /** `GeneratedMembers` for one schedule, by induction on the origins. */
  lemma {:induction false} GeneratedMember(
    trips: Trips, origins: seq<Place>, destination: Place, workSeconds: int, instants: seq<int>, s: Schedule)
    ensures s in Generated(trips, origins, destination, workSeconds, instants) <==>
      exists o, t :: o in origins && t in instants && CandidateAt(trips, o, destination, workSeconds, t) == Some(s)
    decreases |origins|
  {
    if origins != [] {
      var n := |origins| - 1;
      var init, last := origins[..n], origins[n];
      assert origins == init + [last];
      GeneratedMember(trips, init, destination, workSeconds, instants, s);
      CandidatesMembers(trips, last, destination, workSeconds, instants);
      GeneratedSnocMember(trips, init, last, destination, workSeconds, instants, s);
    }
  }

  /** The step of `GeneratedMember`: a schedule generated from one more origin. */
  lemma GeneratedSnocMember(
    trips: Trips, init: seq<Place>, last: Place, destination: Place, workSeconds: int, instants: seq<int>, s: Schedule)
    requires s in Generated(trips, init, destination, workSeconds, instants) <==>
      exists o, t :: o in init && t in instants && CandidateAt(trips, o, destination, workSeconds, t) == Some(s)
    requires s in Candidates(trips, last, destination, workSeconds, instants) <==>
      exists t :: t in instants && CandidateAt(trips, last, destination, workSeconds, t) == Some(s)
    ensures s in Generated(trips, init + [last], destination, workSeconds, instants) <==>
      exists o, t :: o in init + [last] && t in instants && CandidateAt(trips, o, destination, workSeconds, t) == Some(s)
  {
    var origins := init + [last];
    assert origins[..|origins| - 1] == init;
    if o, t :| o in origins && t in instants && CandidateAt(trips, o, destination, workSeconds, t) == Some(s) {
      if o != last {
        assert o in init;
      }
    }
    if s in Generated(trips, init, destination, workSeconds, instants) {
      var o, t :| o in init && t in instants && CandidateAt(trips, o, destination, workSeconds, t) == Some(s);
      assert o in origins;
    }
  }

  /** Visiting one more instant appends the queries of its pass. */
  lemma WindowQueriesSnoc(trips: Trips, origin: Place, destination: Place, workSeconds: int, instants: seq<int>, t: int)
    ensures WindowQueries(trips, origin, destination, workSeconds, instants + [t]) ==
      WindowQueries(trips, origin, destination, workSeconds, instants) + PassQueries(trips, origin, destination, workSeconds, t)
  {
    assert (instants + [t])[..|instants|] == instants;
  }

  /**
   * One pass asks for the trip to work first, and for the trip home exactly
   * when the trip to work is found, at the requested departure plus its
   * duration plus the working time.
   */
  lemma PassQueriesOrder(trips: Trips, origin: Place, destination: Place, workSeconds: int, t: int)
    ensures var q := PassQueries(trips, origin, destination, workSeconds, t);
      && 1 <= |q| <= 2
      && q[0] == Query(origin, destination, t)
      && (|q| == 2 <==> trips(origin, destination, t).Some?)
      && (|q| == 2 ==> q[1] == Query(destination, origin, t + trips(origin, destination, t).value.durationSeconds + workSeconds))
  {
  }

  /**
   * Query `j` of a trace is a trip to work, or a trip home issued right after
   * the trip to work it depends on, which was found.
   */
  predicate Chained(trips: Trips, origin: Place, destination: Place, workSeconds: int, q: seq<Query>, j: int)
    requires 0 <= j < |q|
  {
    || q[j] == Query(origin, destination, q[j].departure)
    || (&& j > 0
        && q[j - 1] == Query(origin, destination, q[j - 1].departure)
        && trips(origin, destination, q[j - 1].departure).Some?
        && q[j] == Query(destination, origin,
             q[j - 1].departure + trips(origin, destination, q[j - 1].departure).value.durationSeconds + workSeconds))
  }

  /**
   * Over a window, every trip home is asked for right after a trip to work
   * that was found, and every instant gets its trip to work asked for.
   */
  lemma {:induction false} WindowQueriesChained(trips: Trips, origin: Place, destination: Place, workSeconds: int, instants: seq<int>)
    ensures var q := WindowQueries(trips, origin, destination, workSeconds, instants);
      && (forall j :: 0 <= j < |q| ==> Chained(trips, origin, destination, workSeconds, q, j))
      && (forall t :: t in instants ==> Query(origin, destination, t) in q)
    decreases |instants|
  {
    if instants != [] {
      var n := |instants| - 1;
      var init, last := instants[..n], instants[n];
      WindowQueriesChained(trips, origin, destination, workSeconds, init);
      var before := WindowQueries(trips, origin, destination, workSeconds, init);
      var q := WindowQueries(trips, origin, destination, workSeconds, instants);
      assert q == before + PassQueries(trips, origin, destination, workSeconds, last);
      forall j | 0 <= j < |q| ensures Chained(trips, origin, destination, workSeconds, q, j) {
        if j < |before| {
          assert Chained(trips, origin, destination, workSeconds, before, j);
          assert q[j] == before[j];
          if j > 0 {
            assert q[j - 1] == before[j - 1];
          }
        } else if j == |before| {
          assert q[j] == Query(origin, destination, last);
        } else {
          assert q[j - 1] == Query(origin, destination, last);
        }
      }
      assert instants == init + [last];
      forall t | t in instants ensures Query(origin, destination, t) in q {
        if t == last {
          assert q[|before|] == Query(origin, destination, t);
        } else {
          assert t in init;
          assert Query(origin, destination, t) in before;
        }
      }
    }
  }

  /** `BothResolve` keeps exactly the instants at which both legs are found. */
  lemma {:induction false} BothResolveMembers(trips: Trips, origin: Place, destination: Place, workSeconds: int, instants: seq<int>)
    ensures forall t :: t in BothResolve(trips, origin, destination, workSeconds, instants) <==>
      t in instants && CandidateAt(trips, origin, destination, workSeconds, t).Some?
    decreases |instants|
  {
    if instants != [] {
      var n := |instants| - 1;
      BothResolveMembers(trips, origin, destination, workSeconds, instants[..n]);
      assert instants == instants[..n] + [instants[n]];
    }
  }

  /**
   * The schedules from one origin are, one each and in order, those of the
   * instants at which both legs are found.
   */
  lemma {:induction false} CandidatesFollowBothResolve(trips: Trips, origin: Place, destination: Place, workSeconds: int, instants: seq<int>)
    ensures var found := Candidates(trips, origin, destination, workSeconds, instants);
      var times := BothResolve(trips, origin, destination, workSeconds, instants);
      && |found| == |times|
      && forall j :: 0 <= j < |times| ==> CandidateAt(trips, origin, destination, workSeconds, times[j]) == Some(found[j])
    decreases |instants|
  {
    if instants != [] {
      var n := |instants| - 1;
      CandidatesFollowBothResolve(trips, origin, destination, workSeconds, instants[..n]);
    }
  }

  /**
   * All schedules generated are, one each and in order, those of the (origin,
   * instant) pairs at which both legs are found, origin-major.
   */
  lemma {:induction false} GeneratedFollowsPairs(trips: Trips, origins: seq<Place>, destination: Place, workSeconds: int, instants: seq<int>)
    ensures var generated := Generated(trips, origins, destination, workSeconds, instants);
      var pairs := BothResolvePairs(trips, origins, destination, workSeconds, instants);
      && |generated| == |pairs|
      && forall j :: 0 <= j < |pairs| ==> CandidateAt(trips, pairs[j].0, destination, workSeconds, pairs[j].1) == Some(generated[j])
    decreases |origins|
  {
    if origins != [] {
      var n := |origins| - 1;
      var init, last := origins[..n], origins[n];
      GeneratedFollowsPairs(trips, init, destination, workSeconds, instants);
      CandidatesFollowBothResolve(trips, last, destination, workSeconds, instants);
      var generated0 := Generated(trips, init, destination, workSeconds, instants);
      var pairs0 := BothResolvePairs(trips, init, destination, workSeconds, instants);
      var found := Candidates(trips, last, destination, workSeconds, instants);
      var times := BothResolve(trips, last, destination, workSeconds, instants);
      var generated := Generated(trips, origins, destination, workSeconds, instants);
      var pairs := BothResolvePairs(trips, origins, destination, workSeconds, instants);
      assert generated == generated0 + found;
      assert pairs == pairs0 + Tagged(last, times);
      forall j | 0 <= j < |pairs|
        ensures CandidateAt(trips, pairs[j].0, destination, workSeconds, pairs[j].1) == Some(generated[j])
      {
        if j < |pairs0| {
          assert pairs[j] == pairs0[j] && generated[j] == generated0[j];
        } else {
          var i := j - |pairs0|;
          assert pairs[j] == (last, times[i]) && generated[j] == found[i];
        }
      }
    }
  }

  /** A pair is listed exactly when its origin is listed, its instant is in the window, and both legs are found there. */
  lemma BothResolvePairsMembers(trips: Trips, origins: seq<Place>, destination: Place, workSeconds: int, instants: seq<int>)
    ensures forall o, t :: (o, t) in BothResolvePairs(trips, origins, destination, workSeconds, instants) <==>
      o in origins && t in instants && CandidateAt(trips, o, destination, workSeconds, t).Some?
  {
    forall o, t ensures (o, t) in BothResolvePairs(trips, origins, destination, workSeconds, instants) <==>
      o in origins && t in instants && CandidateAt(trips, o, destination, workSeconds, t).Some?
    {
      BothResolvePairMember(trips, origins, destination, workSeconds, instants, o, t);
    }
  }

  /** `BothResolvePairsMembers` for one pair, by induction on the origins. */
  lemma {:induction false} BothResolvePairMember(
    trips: Trips, origins: seq<Place>, destination: Place, workSeconds: int, instants: seq<int>, o: Place, t: int)
    ensures (o, t) in BothResolvePairs(trips, origins, destination, workSeconds, instants) <==>
      o in origins && t in instants && CandidateAt(trips, o, destination, workSeconds, t).Some?
    decreases |origins|
  {
    if origins != [] {
      var n := |origins| - 1;
      var init, last := origins[..n], origins[n];
      BothResolvePairMember(trips, init, destination, workSeconds, instants, o, t);
      BothResolveMembers(trips, last, destination, workSeconds, instants);
      var times := BothResolve(trips, last, destination, workSeconds, instants);
      assert origins == init + [last];
      assert BothResolvePairs(trips, origins, destination, workSeconds, instants)
        == BothResolvePairs(trips, init, destination, workSeconds, instants) + Tagged(last, times);
      if (o, t) in Tagged(last, times) {
        var i :| 0 <= i < |times| && Tagged(last, times)[i] == (o, t);
        assert o == last && t == times[i];
      }
      if o == last && t in times {
        var i :| 0 <= i < |times| && times[i] == t;
        assert Tagged(last, times)[i] == (o, t);
      }
      if o in origins && o != last {
        assert o in init;
      }
    }
  }

  /**
   * One pass of the inner loop of `optimize_work_schedule`: the trip to work
   * at `departure`, then, if there is one, the trip home once the working
   * time has elapsed after the arrival, and the schedule when both are found.
   * `queries` lists the requests issued, in order.
   */
  method ScheduleAt(
    provider: Provider, ghost trips: Trips, origin: Place, destination: Place, workSeconds: int, departure: int)
    returns (schedule: Option<Schedule>, ghost queries: seq<Query>)
    requires TripsOfProvider(trips, provider)
    ensures schedule == CandidateAt(trips, origin, destination, workSeconds, departure)
    ensures queries == PassQueries(trips, origin, destination, workSeconds, departure)
  {
    var toWork := FetchTrip(provider, trips, origin, destination, departure);
    queries := [Query(origin, destination, departure)];
    if toWork.None? {
      return None, queries;
    }
    var arrivalAtWork := departure + toWork.value.durationSeconds;
    var leaveWorkTime := arrivalAtWork + workSeconds;
    var toHome := FetchTrip(provider, trips, destination, origin, leaveWorkTime);
    queries := queries + [Query(destination, origin, leaveWorkTime)];
    if toHome.None? {
      return None, queries;
    }
    var totalDuration := toWork.value.durationSeconds + toHome.value.durationSeconds;
    schedule := Some(Schedule(
      origin,
      toWork.value.actualDeparture.GetOr(departure), toWork.value.durationSeconds, toWork.value.routeSummary,
      toHome.value.actualDeparture.GetOr(leaveWorkTime), toHome.value.durationSeconds, toHome.value.routeSummary,
      totalDuration, ShowInt(totalDuration / 60) + " mins"));
  }

  /** One iteration of the inner loop: the pass at `t` extends the schedules and the queries of the instants before it. */
  method ExtendSchedules(
    provider: Provider, ghost trips: Trips, origin: Place, destination: Place, workSeconds: int,
    ghost visited: seq<int>, t: int, found: seq<Schedule>, ghost queries: seq<Query>)
    returns (foundNext: seq<Schedule>, ghost queriesNext: seq<Query>)
    requires TripsOfProvider(trips, provider)
    requires found == Candidates(trips, origin, destination, workSeconds, visited)
    requires queries == WindowQueries(trips, origin, destination, workSeconds, visited)
    ensures foundNext == Candidates(trips, origin, destination, workSeconds, visited + [t])
    ensures queriesNext == WindowQueries(trips, origin, destination, workSeconds, visited + [t])
  {
    CandidatesSnoc(trips, origin, destination, workSeconds, visited, t);
    WindowQueriesSnoc(trips, origin, destination, workSeconds, visited, t);
    var schedule, pass := ScheduleAt(provider, trips, origin, destination, workSeconds, t);
    foundNext := if schedule.Some? then found + [schedule.value] else found;
    queriesNext := queries + pass;
  }

  /**
   * The inner loop of `optimize_work_schedule`, for one origin: walks the
   * grid `window_start, window_start + interval, ...` while not past
   * `window_end`; at each instant asks for the trip to work and, if there is
   * one, for the trip home after the working time; records a schedule when
   * both are found. `queries` lists the requests issued, in order.
   */
  method SchedulesFrom(
    provider: Provider, ghost trips: Trips, origin: Place, destination: Place, workSeconds: int,
    windowStart: int, windowEnd: int, step: int)
    returns (found: seq<Schedule>, ghost queries: seq<Query>)
    requires TripsOfProvider(trips, provider)
    requires step > 0
    ensures found == Candidates(trips, origin, destination, workSeconds, Grid(windowStart, windowEnd, step))
    ensures queries == WindowQueries(trips, origin, destination, workSeconds, Grid(windowStart, windowEnd, step))
  {
    ghost var grid := Grid(windowStart, windowEnd, step);
    ghost var visited: seq<int> := [];
    found := [];
    queries := [];
    var currentDeparture := windowStart;
    while currentDeparture <= windowEnd
      invariant visited + Grid(currentDeparture, windowEnd, step) == grid
      invariant found == Candidates(trips, origin, destination, workSeconds, visited)
      invariant queries == WindowQueries(trips, origin, destination, workSeconds, visited)
      decreases windowEnd - currentDeparture
    {
      GridWalk(visited, currentDeparture, windowEnd, step, grid);
      found, queries := ExtendSchedules(provider, trips, origin, destination, workSeconds, visited, currentDeparture, found, queries);
      visited := visited + [currentDeparture];
      currentDeparture := currentDeparture + step;
    }
    GridWalk(visited, currentDeparture, windowEnd, step, grid);
  }

  /**
   * `optimize_work_schedule`: the schedules of every origin in turn, sorted
   * by total commute time (stably, as Python's `sort` is); the first one is
   * the best. `queries` lists the requests issued, origin after origin.
   */
  method OptimizeWorkSchedule(
    provider: Provider, ghost trips: Trips, origins: seq<Place>, destination: Place, workSeconds: int,
    windowStart: int, windowEnd: int, intervalMinutes: int)
    returns (result: WorkSchedule, ghost queries: seq<Query>)
    requires TripsOfProvider(trips, provider)
    requires intervalMinutes > 0
    ensures var generated := Generated(
      trips, origins, destination, workSeconds,
      Grid(windowStart, windowEnd, 60 * intervalMinutes));
      && result.results == InsertionSort(generated, TotalOf)
      && SortedBy(result.results, TotalOf)
      && multiset(result.results) == multiset(generated)
      && result.bestSchedule == (if generated == [] then None else Some(generated[FirstMin(Keys(generated, TotalOf))]))
    ensures queries == AllQueries(trips, origins, destination, workSeconds, Grid(windowStart, windowEnd, 60 * intervalMinutes))
  {
    var step := 60 * intervalMinutes;
    var allResults: seq<Schedule> := [];
    queries := [];
    for i := 0 to |origins|
      invariant allResults == Generated(trips, origins[..i], destination, workSeconds, Grid(windowStart, windowEnd, step))
      invariant queries == AllQueries(trips, origins[..i], destination, workSeconds, Grid(windowStart, windowEnd, step))
    {
      var found, window := SchedulesFrom(provider, trips, origins[i], destination, workSeconds, windowStart, windowEnd, step);
      assert origins[..i + 1][..i] == origins[..i];
      allResults := allResults + found;
      queries := queries + window;
    }
    assert origins[..|origins|] == origins;

    var ranked := new Schedule[|allResults|](k requires 0 <= k < |allResults| => allResults[k]);
    assert ranked[..] == allResults;
    SortInPlace(ranked, TotalOf);
    SortIsSorted(allResults, TotalOf);
    SortPermutes(allResults, TotalOf);
    if allResults != [] {
      SortHeadIsFirstMin(allResults, TotalOf);
    }
    result := WorkSchedule(if ranked.Length > 0 then Some(ranked[0]) else None, ranked[..]);
  }
}
