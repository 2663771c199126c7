/** Runs of the scheduler: its steps in any order, with what a run has to show for them. */
module SchedulerRuns {
  import opened SchedulerSpec

  datatype Event =
    | Create(id: string, expr: string, enabled: bool, max: int, catchUp: bool, now: int)
    | Update(id: string, edit: Edit, now: int)
    | Delete(id: string, now: int)
    | Tick(now: int)
    | Settle(id: string, status: Status, now: int) // an execution ends, or its time limit passes
    | BeginSweep(now: int)                         // the startup loop begins, reading the clock
    | CheckMissed(id: string, since: int, now: int) // one turn of the startup loop that began at since

  datatype Firing = Firing(id: string, minute: int)

  // The store, the executions now in flight, every firing of the tick loop in order, what was recorded for each job,
  // the ids ever given out, the times at which startup loops began, and the time.
  datatype World = World(store: Store, pending: multiset<string>, firings: seq<Firing>,
                         history: map<string, seq<Status>>, used: set<string>, sweeps: set<int>, clock: int)

  const START := World(Store([], {}, map[]), multiset{}, [], map[], {}, {}, 0)

  function Past(w: World, id: string): seq<Status> {
    if id in w.history then w.history[id] else []
  }

  // Ids are fresh, only executions in flight end, and the clock does not run backwards.
  predicate Possible(w: World, e: Event) {
    && w.clock <= e.now
    && (e.Create? ==> e.id !in w.used)
    && (e.Settle? ==> e.id in w.pending && e.status != Skipped)
    && (e.CheckMissed? ==> e.since in w.sweeps)
  }

  function Firings(ids: seq<string>, minute: int): seq<Firing> {
    seq(|ids|, i requires 0 <= i < |ids| => Firing(ids[i], minute))
  }

  // What is recorded for a job that still exists.
  function Noted(w: World, id: string, status: Status): map<string, seq<Status>> {
    if IndexOf(w.store.jobs, id) < |w.store.jobs| then w.history[id := Past(w, id) + [status]] else w.history
  }

  function Step(w: World, e: Event, tt: Timetable): World {
    var s := w.store;
    var w := w.(clock := e.now);
    match e
    case Create(id, expr, enabled, max, catchUp, now) =>
      if tt.check(expr).Some? then w
      else w.(store := s.(jobs := s.jobs + [NewJob(id, expr, enabled, max, catchUp, now, tt)]), used := w.used + {id})
    case Update(id, edit, now) =>
      var i := IndexOf(s.jobs, id);
      if i == |s.jobs| || Updated(s.jobs[i], edit, now, tt).Err? then w
      else w.(store := s.(jobs := s.jobs[i := Updated(s.jobs[i], edit, now, tt).value]))
    case Delete(id, now) =>
      if IndexOf(s.jobs, id) == |s.jobs| then w
      else w.(store := s.(jobs := Without(s.jobs, id), running := s.running - {id}))
    case Tick(now) =>
      var started := Started(s, now, tt);
      w.(store := TickStore(s, now, tt), pending := w.pending + multiset(started),
         firings := w.firings + Firings(started, EpochMinute(now)))
    case Settle(id, status, now) =>
      w.(store := Settled(s, id, status, now, tt), pending := w.pending - multiset{id},
         history := Noted(w, id, status))
    case BeginSweep(now) =>
      w.(sweeps := w.sweeps + {now})
    case CheckMissed(id, since, now) =>
      w.(store := SchedulerSpec.CheckMissed(s, id, since, now, tt),
         pending := if CatchesUp(s, id, since) then w.pending + multiset{id} else w.pending,
         history := if Skips(s, id, since) then Noted(w, id, Skipped) else w.history)
  }

  ghost predicate Run(events: seq<Event>, tt: Timetable) {
    events == [] || (var before := events[..|events| - 1];
                     Run(before, tt) && Possible(After(before, tt), events[|events| - 1]))
  }

  ghost function After(events: seq<Event>, tt: Timetable): World {
    if events == [] then START else Step(After(events[..|events| - 1], tt), events[|events| - 1], tt)
  }
}
