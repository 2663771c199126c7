/** When the scheduler fires, over whole runs: once per minute, one execution at a time, on minutes that match. */
module SchedulerFiring {
  import opened Wrappers
  import opened NextRun
  import opened SchedulerSpec
  import opened SchedulerRuns
  import opened SchedulerSafety
  import CronExpression

  // ----- once per minute -----

  // The minutes in which each job fired, strictly ascending.
  predicate Ascending(f: seq<Firing>) {
    forall i, j | 0 <= i < j < |f| && f[i].id == f[j].id :: f[i].minute < f[j].minute
  }

  // The last firing is remembered, or far enough back to have been pruned.
  predicate Remembered(fired: map<string, int>, minute: int, f: Firing) {
    if f.id in fired then f.minute <= fired[f.id] <= minute else f.minute < minute
  }

  ghost predicate FiringsKept(w: World) {
    && Ascending(w.firings)
    && (forall id | id in w.store.fired :: w.store.fired[id] <= EpochMinute(w.clock))
    && (forall f | f in w.firings :: Remembered(w.store.fired, EpochMinute(w.clock), f))
  }

  lemma MinutesAscend(a: int, b: int)
    requires a <= b
    ensures EpochMinute(a) <= EpochMinute(b)
  {
  }

  lemma StillRemembered(fired: map<string, int>, before: int, after: int, f: Firing)
    requires Remembered(fired, before, f) && before <= after
    ensures Remembered(fired, after, f)
  {
  }

  lemma TickRemembers(s: Store, now: int, tt: Timetable, id: string)
    ensures var (m, fired, fired') := (EpochMinute(now), s.fired, TickStore(s, now, tt).fired);
            && (id in Started(s, now, tt) ==> id in fired' && fired'[id] == m && !(id in fired && fired[id] == m))
            && (id !in Started(s, now, tt) ==>
                  (id in fired' <==> id in fired && m - fired[id] <= 1) && (id in fired' ==> fired'[id] == fired[id]))
  {
    FireDueOne(s, Enabled(s.jobs), EpochMinute(now), tt, id);
  }

  lemma OldFiringAfterTick(w: World, now: int, tt: Timetable, f: Firing)
    requires Remembered(w.store.fired, EpochMinute(w.clock), f) && w.clock <= now
    requires forall id | id in w.store.fired :: w.store.fired[id] <= EpochMinute(w.clock)
    ensures Remembered(TickStore(w.store, now, tt).fired, EpochMinute(now), f)
    ensures f.id in Started(w.store, now, tt) ==> f.minute < EpochMinute(now)
  {
    MinutesAscend(w.clock, now);
    TickRemembers(w.store, now, tt, f.id);
  }

  lemma TickKeepsFirings(w: World, now: int, tt: Timetable)
    requires FiringsKept(w) && w.clock <= now
    ensures FiringsKept(Step(w, Tick(now), tt))
  {
    var s, w' := w.store, Step(w, Tick(now), tt);
    var started, m := Started(s, now, tt), EpochMinute(now);
    forall f | f in w.firings
      ensures Remembered(w'.store.fired, m, f) && (f.id in started ==> f.minute < m)
    {
      OldFiringAfterTick(w, now, tt, f);
    }
    forall id | id in w'.store.fired
      ensures w'.store.fired[id] <= m
    {
      MinutesAscend(w.clock, now);
      TickRemembers(s, now, tt, id);
    }
    forall f | f in w'.firings
      ensures Remembered(w'.store.fired, m, f)
    {
      if f !in w.firings {
        TickRemembers(s, now, tt, f.id);
      }
    }
    StartedAreDistinct(s, Enabled(s.jobs), m, tt);
    AppendedAscend(w.firings, started, m);
  }

  lemma AppendedAscend(f: seq<Firing>, started: seq<string>, m: int)
    requires Ascending(f) && Distinct(started)
    requires forall x | x in f :: x.id in started ==> x.minute < m
    ensures Ascending(f + Firings(started, m))
  {
  }

  lemma StepKeepsFirings(w: World, e: Event, tt: Timetable)
    requires FiringsKept(w) && Possible(w, e)
    ensures FiringsKept(Step(w, e, tt))
  {
    if e.Tick? {
      TickKeepsFirings(w, e.now, tt);
    } else {
      MinutesAscend(w.clock, e.now);
      OthersFireNothing(w, e, tt);
      forall f | f in w.firings
        ensures Remembered(w.store.fired, EpochMinute(e.now), f)
      {
        StillRemembered(w.store.fired, EpochMinute(w.clock), EpochMinute(e.now), f);
      }
    }
  }

  lemma RecordFiresNothing(s: Store, id: string, status: Status, since: int, now: int, tt: Timetable)
    ensures Settled(s, id, status, now, tt).fired == s.fired
    ensures SchedulerSpec.CheckMissed(s, id, since, now, tt).fired == s.fired
  {
  }

  lemma OthersFireNothing(w: World, e: Event, tt: Timetable)
    requires !e.Tick?
    ensures Step(w, e, tt).firings == w.firings && Step(w, e, tt).store.fired == w.store.fired
    ensures Step(w, e, tt).clock == e.now
  {
    if e.Settle? || e.CheckMissed? {
      RecordFiresNothing(w.store, e.id, Outcome(e), if e.CheckMissed? then e.since else 0, e.now, tt);
    }
  }

  // Over every run, however its steps interleave and although old entries are pruned, the minutes in which a job fires
  // are strictly ascending: never twice in one minute.
  lemma {:induction false} FiresOncePerMinute(events: seq<Event>, tt: Timetable)
    requires Run(events, tt)
    ensures FiringsKept(After(events, tt))
  {
    if events != [] {
      var before := events[..|events| - 1];
      FiresOncePerMinute(before, tt);
      StepKeepsFirings(After(before, tt), events[|events| - 1], tt);
    }
  }

  // ----- one execution at a time -----

  // At most one execution of each job is in flight, and the jobs with one are those marked running.
  ghost predicate Slots(w: World) {
    && (forall id | id in w.pending :: w.pending[id] == 1)
    && (forall j | j in w.store.jobs :: j.id in w.store.running <==> j.id in w.pending)
  }

  // A catch-up execution is started only when none of the job is in flight. The startup loop does not look.
  predicate CatchUpIsClear(w: World, e: Event) {
    e.CheckMissed? && CatchesUp(w.store, e.id, e.since) ==> e.id !in w.pending
  }

  lemma JobIdOrigin(w: World, e: Event, tt: Timetable, j': Job)
    requires Ids(w) && Possible(w, e) && j' in Step(w, e, tt).store.jobs
    ensures (e.Create? && j'.id == e.id) || exists j | j in w.store.jobs :: j.id == j'.id
  {
    JobOrigin(w, e, tt, j');
  }

  // What a step does to the execution of one job.
  lemma TickSlot(w: World, now: int, tt: Timetable, id: string)
    requires Slots(w)
    ensures var w' := Step(w, Tick(now), tt);
            if id in Started(w.store, now, tt) then id !in w.pending && w'.pending[id] == 1 && id in w'.store.running
            else w'.pending[id] == w.pending[id] && (id in w'.store.running <==> id in w.store.running)
  {
    FireDueOne(w.store, Enabled(w.store.jobs), EpochMinute(now), tt, id);
    TickFiresExactly(w.store, now, tt, id);
  }

  lemma OtherSlot(w: World, e: Event, tt: Timetable, id: string)
    requires !e.Tick? && (e.BeginSweep? || id != e.id)
    ensures var w' := Step(w, e, tt);
            w'.pending[id] == w.pending[id] && (id in w'.store.running <==> id in w.store.running)
  {
  }

  lemma OwnSlot(w: World, e: Event, tt: Timetable)
    requires Ids(w) && Slots(w) && Possible(w, e) && !e.Tick? && !e.BeginSweep?
    ensures var w' := Step(w, e, tt);
            && (w'.pending[e.id] <= 1 <==> CatchUpIsClear(w, e))
            && (CatchUpIsClear(w, e) && !e.Delete? && (e.Create? || IndexOf(w.store.jobs, e.id) < |w.store.jobs|) ==>
                  (e.id in w'.store.running <==> e.id in w'.pending))
  {
    var i := IndexOf(w.store.jobs, e.id);
    if i < |w.store.jobs| {
      assert w.store.jobs[i] in w.store.jobs;
    }
  }

  lemma SlotAfter(w: World, e: Event, tt: Timetable, j': Job)
    requires Ids(w) && Slots(w) && Possible(w, e) && CatchUpIsClear(w, e) && j' in Step(w, e, tt).store.jobs
    ensures j'.id in Step(w, e, tt).store.running <==> j'.id in Step(w, e, tt).pending
  {
    JobIdOrigin(w, e, tt, j');
    if e.Tick? {
      TickSlot(w, e.now, tt, j'.id);
    } else if e.BeginSweep? || j'.id != e.id {
      OtherSlot(w, e, tt, j'.id);
    } else {
      OwnSlot(w, e, tt);
    }
  }

  lemma PendingAfter(w: World, e: Event, tt: Timetable, id: string)
    requires Ids(w) && Slots(w) && Possible(w, e) && CatchUpIsClear(w, e)
    ensures Step(w, e, tt).pending[id] <= 1
  {
    if e.Tick? {
      TickSlot(w, e.now, tt, id);
    } else if e.BeginSweep? || id != e.id {
      OtherSlot(w, e, tt, id);
    } else {
      OwnSlot(w, e, tt);
    }
  }

  // A step keeps to one execution at a time exactly when it starts no catch-up of a job already in flight.
  lemma OneAtATimeExactly(w: World, e: Event, tt: Timetable)
    requires Ids(w) && Slots(w) && Possible(w, e)
    ensures Slots(Step(w, e, tt)) <==> CatchUpIsClear(w, e)
  {
    if CatchUpIsClear(w, e) {
      forall id | id in Step(w, e, tt).pending
        ensures Step(w, e, tt).pending[id] == 1
      {
        PendingAfter(w, e, tt, id);
      }
      forall j | j in Step(w, e, tt).store.jobs
        ensures j.id in Step(w, e, tt).store.running <==> j.id in Step(w, e, tt).pending
      {
        SlotAfter(w, e, tt, j);
      }
    } else {
      OwnSlot(w, e, tt);
    }
  }

  ghost predicate CatchUpsAreClear(events: seq<Event>, tt: Timetable) {
    forall k | 0 <= k < |events| :: CatchUpIsClear(After(events[..k], tt), events[k])
  }

  lemma {:induction false} RunKeepsIds(events: seq<Event>, tt: Timetable)
    requires Run(events, tt)
    ensures Ids(After(events, tt))
  {
    if events != [] {
      var before := events[..|events| - 1];
      RunKeepsIds(before, tt);
      StepKeepsIds(After(before, tt), events[|events| - 1], tt);
    }
  }

  // Over every run whose catch-ups are clear, no job has two executions in flight, and a tick fires a job only when its
  // previous execution has settled, by success, failure or timeout.
  lemma {:induction false} OneExecutionAtATime(events: seq<Event>, tt: Timetable)
    requires Run(events, tt) && CatchUpsAreClear(events, tt)
    ensures Slots(After(events, tt))
    ensures forall id, now | id in Started(After(events, tt).store, now, tt) :: id !in After(events, tt).pending
  {
    if events != [] {
      var before := events[..|events| - 1];
      forall k | 0 <= k < |before|
        ensures CatchUpIsClear(After(before[..k], tt), before[k])
      {
        assert before[..k] == events[..k] && before[k] == events[k];
      }
      OneExecutionAtATime(before, tt);
      RunKeepsIds(before, tt);
      OneAtATimeExactly(After(before, tt), events[|events| - 1], tt);
    }
    forall id, now | id in Started(After(events, tt).store, now, tt)
      ensures id !in After(events, tt).pending
    {
      TickSlot(After(events, tt), now, tt, id);
    }
  }

  lemma OneMore(events: seq<Event>, e: Event, tt: Timetable)
    requires Run(events, tt) && Possible(After(events, tt), e)
    ensures Run(events + [e], tt) && After(events + [e], tt) == Step(After(events, tt), e, tt)
  {
    assert (events + [e])[..|events|] == events;
  }

  // Without that care it fails: in any run, a turn of the startup loop starts a catch-up job whose plan lies before
  // the loop began even while an execution of it is in flight, for the plan only moves on when an execution ends.
  lemma CatchUpDoubles(events: seq<Event>, id: string, since: int, now: int, tt: Timetable)
    requires Run(events, tt) && After(events, tt).clock <= now
    requires since in After(events, tt).sweeps && CatchesUp(After(events, tt).store, id, since)
    ensures var more := events + [CheckMissed(id, since, now)];
            Run(more, tt) && After(more, tt).pending[id] == After(events, tt).pending[id] + 1
  {
    OneMore(events, CheckMissed(id, since, now), tt);
    CatchUpAdds(After(events, tt), id, since, now, tt);
  }

  lemma CatchUpAdds(w: World, id: string, since: int, now: int, tt: Timetable)
    requires CatchesUp(w.store, id, since)
    ensures Step(w, CheckMissed(id, since, now), tt).pending[id] == w.pending[id] + 1
  {
  }

  // One loop over two missed jobs with the same expression gets there: the catch-up of the first is slow, a tick fires
  // the second one meanwhile, and the next turn starts the second one again.
  function SlowFirstTurn(a: string, b: string, t1: int): (events: seq<Event>)
    ensures |events| == 4
  {
    [BeginSweep(t1), CheckMissed(a, t1, t1), Tick(t1), Settle(a, Success, t1)]
  }

  lemma CatchUpOverlaps(a: string, b: string, expr: string, max: int, t0: int, ms: int, t1: int, tt: Timetable)
    requires a != b && 0 <= t0 < ms < t1
    requires tt.check(expr).None? && tt.next(expr, t0) == Some(ms) && tt.calls(expr, EpochMinute(t1))
    ensures var events := [Create(a, expr, true, max, true, t0), Create(b, expr, true, max, true, t0)] +
                          SlowFirstTurn(a, b, t1) + [CheckMissed(b, t1, t1)];
            Run(events, tt) && After(events, tt).pending[b] == 2
  {
    hide Step, Run, After, CatchesUp;
    var ja, jb := NewJob(a, expr, true, max, true, t0, tt), NewJob(b, expr, true, max, true, t0, tt);
    var made := [Create(a, expr, true, max, true, t0), Create(b, expr, true, max, true, t0)];
    AfterCreates(a, b, expr, max, t0, tt);
    SweepBegins(After(made, tt), t1, tt);
    OneMore(made, BeginSweep(t1), tt);
    var begun := made + [BeginSweep(t1)];
    FirstTurn(After(begun, tt), ja, jb, t1, tt);
    OneMore(begun, CheckMissed(a, t1, t1), tt);
    var slow := begun + [CheckMissed(a, t1, t1)];
    TickBetween(After(slow, tt), ja, jb, t1, tt);
    OneMore(slow, Tick(t1), tt);
    var fired := slow + [Tick(t1)];
    FirstSettles(After(fired, tt), ja, jb, t1, tt);
    OneMore(fired, Settle(a, Success, t1), tt);
    CatchUpDoubles(fired + [Settle(a, Success, t1)], b, t1, t1, tt);
    assert fired + [Settle(a, Success, t1)] == made + SlowFirstTurn(a, b, t1);
  }

  lemma AfterCreates(a: string, b: string, expr: string, max: int, t0: int, tt: Timetable)
    requires a != b && 0 <= t0 && tt.check(expr).None?
    ensures var events := [Create(a, expr, true, max, true, t0), Create(b, expr, true, max, true, t0)];
            var jobs := [NewJob(a, expr, true, max, true, t0, tt), NewJob(b, expr, true, max, true, t0, tt)];
            Run(events, tt) && After(events, tt) == World(Store(jobs, {}, map[]), multiset{}, [], map[], {a, b}, {}, t0)
  {
    var e0, e1 := Create(a, expr, true, max, true, t0), Create(b, expr, true, max, true, t0);
    OneMore([], e0, tt);
    assert [] + [e0] == [e0] && [e0] + [e1] == [e0, e1];
    OneMore([e0], e1, tt);
  }

  lemma SweepBegins(w: World, t1: int, tt: Timetable)
    ensures Step(w, BeginSweep(t1), tt) == w.(sweeps := w.sweeps + {t1}, clock := t1)
  {
  }

  lemma FirstTurn(w: World, ja: Job, jb: Job, t1: int, tt: Timetable)
    requires w.store == Store([ja, jb], {}, map[]) && w.pending == multiset{} && Missed(ja, t1) && ja.catchUp
    ensures var w' := Step(w, CheckMissed(ja.id, t1, t1), tt);
            && w'.store == Store([ja, jb], {ja.id}, map[]) && w'.pending == multiset{ja.id}
            && w'.sweeps == w.sweeps && w'.clock == t1
  {
    assert IndexOf([ja, jb], ja.id) == 0;
  }

  lemma TickBetween(w: World, ja: Job, jb: Job, t1: int, tt: Timetable)
    requires w.store == Store([ja, jb], {ja.id}, map[]) && w.pending == multiset{ja.id} && ja.id != jb.id
    requires jb.enabled && tt.calls(jb.cronExpression, EpochMinute(t1))
    ensures var w' := Step(w, Tick(t1), tt);
            && w'.store.jobs == [ja, jb] && w'.pending[ja.id] == 1 && w'.pending[jb.id] == 1
            && w'.sweeps == w.sweeps && w'.clock == t1
  {
    assert jb in w.store.jobs && Due(w.store, jb, EpochMinute(t1), tt);
    TickFiresExactly(w.store, t1, tt, ja.id);
    TickFiresExactly(w.store, t1, tt, jb.id);
    FireDueOne(w.store, Enabled(w.store.jobs), EpochMinute(t1), tt, jb.id);
  }

  lemma FirstSettles(w: World, ja: Job, jb: Job, t1: int, tt: Timetable)
    requires w.store.jobs == [ja, jb] && ja.id != jb.id && Missed(jb, t1) && jb.catchUp
    ensures var w' := Step(w, Settle(ja.id, Success, t1), tt);
            && w'.pending[jb.id] == w.pending[jb.id] && CatchesUp(w'.store, jb.id, t1)
            && w'.sweeps == w.sweeps && w'.clock == t1
  {
    assert IndexOf([ja, jb], ja.id) == 0;
    SecondIndex(Recorded(ja, Success, t1, tt), jb);
  }

  lemma SecondIndex(first: Job, second: Job)
    requires first.id != second.id
    ensures IndexOf([first, second], second.id) == 1
  {
    assert [first, second][1..] == [second];
  }

  // ----- planned runs -----

  // What cron expressions give: the next run is a minute that is called for, later than now, with none in between, and
  // the empty expression calls for none.
  ghost predicate Sound(tt: Timetable) {
    && (forall expr, now | tt.next(expr, now).Some? :: SoundAt(tt, expr, now, tt.next(expr, now).value))
    && (forall m :: !tt.calls("", m))
  }

  ghost predicate SoundAt(tt: Timetable, expr: string, now: int, ms: int) {
    && ms > now && OnCalledMinute(ms, expr, tt)
    && forall m | EpochMinute(now) < m < EpochMinute(ms) :: !tt.calls(expr, m)
  }

  predicate OnCalledMinute(ms: int, expr: string, tt: Timetable) {
    ms % MINUTE_MS == 0 && tt.calls(expr, EpochMinute(ms))
  }

  lemma MinuteOfMs(t: int)
    ensures EpochMinute(t * MINUTE_MS) == t && t * MINUTE_MS % MINUTE_MS == 0
  {
  }

  lemma CronIsSound(civil: Clock)
    ensures Sound(Cron(civil))
  {
    forall expr, now | Cron(civil).next(expr, now).Some?
      ensures SoundAt(Cron(civil), expr, now, Cron(civil).next(expr, now).value)
    {
      NextRunIsSound(expr, now, civil);
    }
    forall m
      ensures !Cron(civil).calls("", m)
    {
      EmptyExpressionIsNeverDue(civil, m);
    }
  }

  lemma EmptyExpressionIsNeverDue(civil: Clock, m: int)
    ensures !Cron(civil).calls("", m)
  {
    assert CronExpression.Words("") == [""];
  }

  lemma NextRunIsSound(expr: string, now: int, civil: Clock)
    requires NextRunAt(expr, now, civil).Some?
    ensures SoundAt(Cron(civil), expr, now, NextRunAt(expr, now, civil).value)
  {
    var parsed := CronExpression.Parsed(expr);
    NextRunIsExact(parsed, now, civil);
    var t: int :| IsNextMatch(parsed.value, civil, now, t) && NextRunAt(expr, now, civil).value == t * MINUTE_MS;
    MinuteOfMs(t);
    forall m | EpochMinute(now) < m < t
      ensures !Calls(expr, m, civil)
    {
      assert !Matcher(parsed.value, civil)(m);
    }
  }

  // A planned run, if there is one, is on a minute the expression calls for.
  predicate Planned(j: Job, tt: Timetable) {
    j.nextRunAt.Some? ==> OnCalledMinute(j.nextRunAt.value, j.cronExpression, tt)
  }

  // The updates that keep a plan: a new expression replans; without a plan there is nothing to keep; and if the
  // expression stays, so may the plan, or it is moved to a minute the expression calls for. That leaves out moving the
  // plan anywhere else, and putting the empty expression, which is stored unchecked, beside a plan.
  predicate KeepsPlan(j: Job, e: Edit, tt: Timetable) {
    var plan := e.nextRunAt.UnwrapOr(j.nextRunAt);
    || (e.cronExpression.Some? && e.cronExpression.value != "")
    || plan.None?
    || (e.cronExpression.None? && (e.nextRunAt.None? || OnCalledMinute(plan.value, j.cronExpression, tt)))
  }

  lemma EditKeepsPlanExactly(j: Job, e: Edit, now: int, tt: Timetable)
    requires Sound(tt) && Planned(j, tt) && Updated(j, e, now, tt).Ok?
    ensures Planned(Updated(j, e, now, tt).value, tt) <==> KeepsPlan(j, e, tt)
  {
    if e.cronExpression.Some? && e.cronExpression.value != "" && tt.next(e.cronExpression.value, now).Some? {
      assert SoundAt(tt, e.cronExpression.value, now, tt.next(e.cronExpression.value, now).value);
    }
  }

  // The plan of any job may be moved by an update to the 30001st millisecond, which is on no minute.
  const OFF_THE_MINUTE := Edit(None, None, None, None, Some(Some(30001)), None, None)

  lemma MovedPlanMisses(id: string, expr: string, max: int, catchUp: bool, t0: int, tt: Timetable)
    requires 0 <= t0 && tt.check(expr).None?
    ensures var events := [Create(id, expr, true, max, catchUp, t0)] + [Update(id, OFF_THE_MINUTE, t0)];
            Run(events, tt) && !AllPlanned(After(events, tt), tt)
  {
    var e, job := Create(id, expr, true, max, catchUp, t0), NewJob(id, expr, true, max, catchUp, t0, tt);
    OneMore([], e, tt);
    assert [] + [e] == [e] && [] + [job] == [job];
    OneMore([e], Update(id, OFF_THE_MINUTE, t0), tt);
    var w := After([e] + [Update(id, OFF_THE_MINUTE, t0)], tt);
    assert IndexOf([job], id) == 0;
    assert w.store.jobs[0] in w.store.jobs && !Planned(w.store.jobs[0], tt);
  }

  ghost predicate AllPlanned(w: World, tt: Timetable) {
    forall j | j in w.store.jobs :: Planned(j, tt)
  }

  // The update names no job, or keeps the plan of the one it names.
  predicate PlanIsClear(w: World, e: Event, tt: Timetable) {
    e.Update? ==> var i := IndexOf(w.store.jobs, e.id);
                  i < |w.store.jobs| ==> KeepsPlan(w.store.jobs[i], e.edit, tt)
  }

  lemma CarriedIsPlanned(e: Event, tt: Timetable, j: Job, past: seq<Status>, j': Job, past': seq<Status>)
    requires Sound(tt) && Planned(j, tt) && Carried(e, tt, j, past, j', past')
    requires e.Update? && e.id == j.id ==> KeepsPlan(j, e.edit, tt)
    ensures Planned(j', tt)
  {
    if j' != j && e.Update? {
      EditKeepsPlanExactly(j, e.edit, e.now, tt);
    } else if j' != j && j'.nextRunAt.Some? {
      assert SoundAt(tt, j'.cronExpression, e.now, j'.nextRunAt.value);
    }
  }

  lemma PlannedAfter(w: World, e: Event, tt: Timetable, j': Job)
    requires Sound(tt) && Ids(w) && Possible(w, e) && PlanIsClear(w, e, tt) && j' in Step(w, e, tt).store.jobs
    requires AllPlanned(w, tt)
    ensures Planned(j', tt)
  {
    JobOrigin(w, e, tt, j');
    if HasOrigin(w, e, tt, j') {
      var past' := Past(Step(w, e, tt), j'.id);
      var j :| j in w.store.jobs && j.id == j'.id && Carried(e, tt, j, Past(w, j.id), j', past');
      TheJob(w.store.jobs, j);
      CarriedIsPlanned(e, tt, j, Past(w, j.id), j', past');
    } else if j'.nextRunAt.Some? {
      assert SoundAt(tt, j'.cronExpression, e.now, j'.nextRunAt.value);
    }
  }

  // A step keeps every plan on a called minute exactly when it is no update of the two kinds left out above.
  lemma PlansAreKeptExactly(w: World, e: Event, tt: Timetable)
    requires Sound(tt) && Ids(w) && Possible(w, e) && AllPlanned(w, tt)
    ensures AllPlanned(Step(w, e, tt), tt) <==> PlanIsClear(w, e, tt)
  {
    if PlanIsClear(w, e, tt) {
      forall j | j in Step(w, e, tt).store.jobs
        ensures Planned(j, tt)
      {
        PlannedAfter(w, e, tt, j);
      }
    } else {
      UnclearUpdateBreaks(w, e, tt);
    }
  }

  lemma UnclearUpdateBreaks(w: World, e: Event, tt: Timetable)
    requires Sound(tt) && AllPlanned(w, tt) && !PlanIsClear(w, e, tt)
    ensures !AllPlanned(Step(w, e, tt), tt)
  {
    var i := IndexOf(w.store.jobs, e.id);
    EditKeepsPlanExactly(w.store.jobs[i], e.edit, e.now, tt);
    assert Step(w, e, tt).store.jobs[i] in Step(w, e, tt).store.jobs;
  }

  ghost predicate PlansAreClear(events: seq<Event>, tt: Timetable) {
    forall k | 0 <= k < |events| :: PlanIsClear(After(events[..k], tt), events[k], tt)
  }

  // Over every run of such steps, every planned run is on a minute its job's expression calls for.
  lemma {:induction false} PlansAreKept(events: seq<Event>, tt: Timetable)
    requires Sound(tt) && Run(events, tt) && PlansAreClear(events, tt)
    ensures AllPlanned(After(events, tt), tt)
  {
    if events != [] {
      var before := events[..|events| - 1];
      forall k | 0 <= k < |before|
        ensures PlanIsClear(After(before[..k], tt), before[k], tt)
      {
        assert before[..k] == events[..k] && before[k] == events[k];
      }
      PlansAreKept(before, tt);
      RunKeepsIds(before, tt);
      PlansAreKeptExactly(After(before, tt), events[|events| - 1], tt);
    }
  }

  // A tick in the planned minute fires the job, unless it is still running or has fired in that minute already.
  lemma PlannedMinuteFires(s: Store, j: Job, now: int, tt: Timetable)
    requires DistinctJobs(s.jobs) && j in s.jobs && j.enabled && Planned(j, tt) && j.nextRunAt.Some?
    requires EpochMinute(now) == EpochMinute(j.nextRunAt.value)
    ensures j.id in Started(s, now, tt) <==>
            j.id !in s.running && !(j.id in s.fired && s.fired[j.id] == EpochMinute(now))
  {
    TickFiresExactly(s, now, tt, j.id);
    OnlyJob(s, j, now, tt);
  }

  lemma OnlyJob(s: Store, j: Job, now: int, tt: Timetable)
    requires DistinctJobs(s.jobs) && j in s.jobs
    ensures j.id in Started(s, now, tt) <==> j.enabled && Due(s, j, EpochMinute(now), tt)
  {
    TickFiresExactly(s, now, tt, j.id);
    TheJob(s.jobs, j);
    forall k | k in s.jobs && k.id == j.id
      ensures k == j
    {
      TheJob(s.jobs, k);
    }
  }

  // From the minute after an execution is recorded, no tick fires the job before the planned minute.
  lemma WaitsForThePlan(s: Store, j: Job, status: Status, recordedAt: int, now: int, tt: Timetable)
    requires Sound(tt) && DistinctJobs(s.jobs)
    requires var j' := Recorded(j, status, recordedAt, tt);
             j' in s.jobs && j'.nextRunAt.Some? &&
             EpochMinute(recordedAt) < EpochMinute(now) < EpochMinute(j'.nextRunAt.value)
    ensures j.id !in Started(s, now, tt)
  {
    var j' := Recorded(j, status, recordedAt, tt);
    assert SoundAt(tt, j.cronExpression, recordedAt, j'.nextRunAt.value);
    OnlyJob(s, j', now, tt);
  }
}
