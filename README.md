# TransitOptimizer engine, modelled in Dafny

TransitOptimizer chooses when to travel by public transport. It asks a
directions provider for trips at every instant of a sampling grid over a
time window, and it reports the best of them. This project models the
engine in `transit_engine.py` and proves properties of the model:

- `get_trip_details` (module `Directions`). It makes one provider query
  with alternatives and keeps the first route whose first leg has the
  smallest duration. Each step of that leg gets a label: `"<vehicle> <line>"`
  for a ride, `"Walk"` when the cleaned instruction mentions walking, and the
  cleaned text otherwise. The labels are joined with `" -> "`. A failed call,
  an empty answer, a route without legs or a ride without a line short name
  gives `None`.
- `find_best_departure` (module `Departure`). It walks the grid
  `window_start, window_start + interval, …` while not past `window_end`.
  It records every instant that yields a trip and keeps the first trip of
  smallest duration. The reported best departure is the provider's departure
  time of that trip, which may be absent.
- `optimize_work_schedule` (module `Schedule`). For each origin and each grid
  instant it asks for the trip to work. Work is left the working time after
  the requested departure plus the trip's duration, and the trip home is
  asked for at that instant. A schedule exists when both legs are found. All
  schedules are sorted stably by total commute time, and the best is the
  first.

Supporting modules:

- `Text`: Python's `str.replace`, `in`, `join` and `str(int)`, each with a
  partner: parsing for `str(int)`, containment for `join`.
- `Ranking`: the running minimum with strict `<`, and Python's stable
  `list.sort` as an insertion sort. The sort is a function, proved sorted,
  a permutation and stable. An in-place array method is proved equal to it.
- `Window`: the sampling grid.
- `Wrappers`: `Option`.

The provider is a parameter: a function from (origin, destination, departure
instant) to `None`, when the call raises, or to the list of routes it
returns. The schedulers carry a ghost `trips` function that stands for what
`get_trip_details` returns for every query, tied to the provider by
`Directions.TripsOfProvider`. Instants and durations are whole seconds.

## Model

| member | source | states |
|---|---|---|
| Directions.GetTripDetails | transit_engine.py:17-104 | the method's result equals `Normalize` of the provider's answer; the running-minimum loop is proved to find the first fastest route, and the step loop the label of every step |
| Directions.Normalize | transit_engine.py:33-104 | a failed call or an empty answer gives `None`; a record exists exactly when every route has a leg and every step of the chosen leg has a label; its duration is at most every route's first-leg duration; its summary is the labels joined by `" -> "` |
| Directions.RouteChoice | transit_engine.py:35-49 | a record always describes the first leg of the first route, in provider order, whose duration is minimal (earlier routes are strictly slower) |
| Directions.StepLabel | transit_engine.py:53-65 | a ride is labelled `"<vehicle> <short name>"` and has no label without a short name; a walk or other step is `"Walk"` exactly when its cleaned text contains `"Walk"`, else the cleaned text |
| Directions.Labels | transit_engine.py:52-65 | labels exist exactly when every step has one; then there is one per step, in step order |
| Directions.StepSummary | transit_engine.py:52-67 | a record has one label per step of the leg it describes, in step order, and its route summary contains each label |
| Directions.Clean | transit_engine.py:61 | cleaning never lengthens the instruction text |
| Directions.CleanKeepsPlainText | transit_engine.py:61 | text without bold tags and without double spaces is left unchanged |
| Directions.FetchTrip | transit_engine.py:121 | a call of `get_trip_details` gives the trip `trips` assigns to the query |
| Text.SinglePassKeepsDoubleSpace | transit_engine.py:61 | a single replace pass turns three spaces into two, so double spaces are not fully collapsed |
| Text.JoinMentionsEveryPart | transit_engine.py:67 | the joined summary contains every step label |
| Text.ParseShowInt | transit_engine.py:197 | reading back the decimal text of an integer gives the integer |
| Ranking.FirstMin | transit_engine.py:42-44 | the index kept by a strict-`<` running minimum holds a smallest value, and every earlier value is strictly larger |
| Ranking.SortInPlace | transit_engine.py:203 | sorting the array leaves exactly `InsertionSort` of its old contents |
| Ranking.InsertLast | transit_engine.py:203 | one insertion step puts the element after the sorted prefix into place and leaves the rest alone |
| Ranking.SortIsSorted | transit_engine.py:203 | the sort is ascending by key and keeps the length |
| Ranking.SortPermutes | transit_engine.py:203 | the sort is a permutation |
| Ranking.SortIsStable | transit_engine.py:203 | for every key, the elements with that key keep their relative order |
| Ranking.SortHeadIsFirstMin | transit_engine.py:205 | the head of the sorted list is the first element of minimal key |
| Window.GridClosedForm | transit_engine.py:119-140 | the grid has the closed-form count of instants, and instant `k` is `start + k * step` |
| Window.GridMembership | transit_engine.py:119-140 | an instant is queried exactly when it lies in the window at a whole number of steps from its start |
| Window.GridIncreasing | transit_engine.py:119-140 | the instants are queried in strictly increasing order |
| Window.GridCoversWindow | transit_engine.py:119-140 | a non-empty window starts its grid at `window_start`, and the last instant is within one step of `window_end` |
| Window.GridWalk | transit_engine.py:120 | each loop test either queries the next grid instant or ends the walk, with every grid instant visited |
| Departure.WalkWindow | transit_engine.py:119-140 | the loop queries exactly the grid instants, in order, and ends in the state `Scan` gives for the trips found there |
| Departure.FindBestDeparture | transit_engine.py:106-149 | the results are the records of the grid walk; a minimum is reported exactly when there is a record; with none, departure and summary are absent; otherwise duration and summary are those of the first fastest record, and the departure is the provider's for its trip |
| Departure.ScanRecords | transit_engine.py:122-134 | the loop state holds one record per instant with a trip, in order |
| Departure.ScanEmpty | transit_engine.py:113-114 | the running minimum and its trip are set exactly when some record exists |
| Departure.ScanBest | transit_engine.py:135-138 | the running minimum is the first record of smallest duration, with that record's summary and the trip found at its instant |
| Departure.RecordsOfResolvedTrips | transit_engine.py:121-134 | records built from the trips the provider gave are the records of the walk |
| Departure.ResolvingMembers | transit_engine.py:121-122 | a record is made exactly for the queried instants that yield a trip |
| Departure.ResolvingIncreasing | transit_engine.py:119-122 | the instants with records stay in increasing order |
| Departure.LegRecordsFollowResolving | transit_engine.py:122-134 | the records are, one each and in order, those of the instants with a trip; each carries its instant and that instant's trip |
| Departure.BestIsEarliestFastest | transit_engine.py:135-138 | the best record is at least as fast as every trip in the window, and no earlier instant yields one as fast |
| Departure.RecordTimes | transit_engine.py:122-134 | each record's requested time is a queried instant with a trip, its duration is that trip's, and its departure time is the provider's departure when present, else the requested instant |
| Departure.BestDepartureMayBeAbsent | transit_engine.py:145-146 | a trip whose leg has no departure time gives a minimum duration with no best departure |
| Schedule.CandidateChaining | transit_engine.py:171-198 | a schedule exists exactly when the trip to work and then the trip home, asked for at departure plus duration plus working time, are both found; it carries both legs, and its total is their sum |
| Schedule.TotalTextMinutes | transit_engine.py:197 | the total text ends in `" mins"`, and its number is the total in minutes rounded down |
| Schedule.CandidatesMembers | transit_engine.py:169-200 | the schedules of one origin are exactly those found at its grid instants, and there are at most as many as instants |
| Schedule.GeneratedMembers | transit_engine.py:166-200 | every schedule generated comes from some origin at some instant, and each such schedule is generated |
| Schedule.BothResolveMembers | transit_engine.py:171-186 | an instant is kept exactly when it is in the window and both legs are found there |
| Schedule.CandidatesFollowBothResolve | transit_engine.py:169-200 | the schedules of one origin are, one each and in grid order, those of the instants at which both legs are found |
| Schedule.GeneratedFollowsPairs | transit_engine.py:166-200 | all generated schedules are, one each and in order, those of the (origin, instant) pairs at which both legs are found, origin-major then grid order |
| Schedule.BothResolvePairsMembers | transit_engine.py:166-186 | a pair is listed exactly when its origin is listed, its instant is in the window and both legs are found there |
| Schedule.PassQueriesOrder | transit_engine.py:171-181 | a pass first asks for the trip to work, and asks for the trip home exactly when that trip is found, at the requested departure plus its duration plus the working time |
| Schedule.WindowQueriesChained | transit_engine.py:168-200 | over a window, every grid instant gets its trip to work asked for, and every trip home is asked for right after a trip to work that was found |
| Schedule.ScheduleAt | transit_engine.py:171-198 | one pass gives the schedule `CandidateAt` describes, and issues exactly the queries `PassQueries` lists, in order |
| Schedule.SchedulesFrom | transit_engine.py:168-200 | the inner loop collects the schedules of every grid instant, in grid order, and issues the passes' queries instant after instant |
| Schedule.OptimizeWorkSchedule | transit_engine.py:152-210 | the results are the generated schedules (origin-major, then grid order) sorted stably by total, ascending and a permutation of them; the best is absent when there are none, else the first of smallest total; the queries are those of every origin's window, origin after origin |

## Left out

- Logging (`log_to_file`, `print`, the trace dump) is not modelled; the model assumes every log write succeeds. A failed write at transit_engine.py:85 would turn a found trip into `None`, and one at lines 21, 100, 117, 142, 164 or 167 would raise out of the scheduler.
- The directions service is a parameter (a pure function), so a repeated query gets the same answer. The requests issued are kept as ghost traces (`Departure.WalkWindow`'s instants, `Schedule.ScheduleAt`'s, `Schedule.SchedulesFrom`'s and `Schedule.OptimizeWorkSchedule`'s queries); the requests inside `get_trip_details` itself are its one provider call.
- Timezones and ISO text: instants are whole seconds, and `actual_departure_iso`, `arrival_iso` and `isoformat()` are those instants.
- `work_duration_hours` is a float in the source; the model takes the working time in whole seconds.
- `float('inf')` as the initial minimum is modelled as `None`.
- Provider answers are typed records. Keys the source always reads (`legs`, `duration`, `html_instructions`, `vehicle`) are always present. Only the keys it handles as optional or that can be missing in practice may be absent: the departure and arrival times, and the line short name.
- `best_time` in `find_best_departure`: the fallback to it at the return is dead, because it is set together with `best_details`, so it is not kept.
- The per-origin and per-window loops of the schedulers are split into helper methods (`Departure.WalkWindow`, `Schedule.SchedulesFrom`, `Schedule.ScheduleAt`).
- The Flask front end (`app.py`) and the browser script are not part of this model.
- Instruction cleaning makes one left-to-right pass of `replace('  ', ' ')`, so a run of three spaces still leaves a double space (`Text.SinglePassKeepsDoubleSpace`).
- The coercion of a single origin string to a list of one (transit_engine.py:161-162) is a dynamic-typing convenience; `Schedule.OptimizeWorkSchedule` takes a sequence of origins.
- Both schedulers require `interval_minutes > 0`. With a zero or negative interval and `window_start <= window_end`, the source loops (transit_engine.py:120-140 and 169-200) never pass `window_end` and do not terminate; the model does not describe those calls.
- Default arguments are not modelled: `interval_minutes` defaults to 15 and 30 (transit_engine.py:106, 152) and `mode` to `"transit"` (line 17). Every parameter is passed explicitly, and the travel mode is fixed by the provider parameter.
- Python's `datetime` has a bounded range. Past it, the additions at transit_engine.py:140, 175, 178 and 200 raise `OverflowError` outside any `try`. Instants here are unbounded integers, so the model never raises there.
