/** What every run of the scheduler keeps: one firing per job and minute, one execution at a time, honest counters. */
module SchedulerSafety {
  import opened Wrappers
  import opened SchedulerSpec
  import opened SchedulerRuns

  // ----- what one tick fires -----

  // A tick fires exactly the enabled jobs that are due when it starts, whatever else it fires before them.
  lemma {:induction false} FireDueOne(s: Store, todo: seq<Job>, minute: int, tt: Timetable, id: string)
    ensures var (s', started) := FireDue(s, todo, minute, tt);
            && s'.jobs == s.jobs
            && (id in started <==> exists j | j in todo :: j.id == id && Due(s, j, minute, tt))
            && (id in started ==> id !in s.running && !(id in s.fired && s.fired[id] == minute)
                                  && id in s'.running && id in s'.fired && s'.fired[id] == minute)
            && (id !in started ==> (id in s'.running <==> id in s.running) && (id in s'.fired <==> id in s.fired)
                                   && (id in s.fired ==> s'.fired[id] == s.fired[id]))
  {
    if todo != [] {
      var before, job := todo[..|todo| - 1], todo[|todo| - 1];
      assert todo == before + [job];
      FireDueOne(s, before, minute, tt, id);
    }
  }

  predicate Distinct<T(==)>(s: seq<T>) {
    forall i, j | 0 <= i < j < |s| :: s[i] != s[j]
  }

  lemma {:induction false} StartedAreDistinct(s: Store, todo: seq<Job>, minute: int, tt: Timetable)
    ensures Distinct(FireDue(s, todo, minute, tt).1)
  {
    if todo != [] {
      var before, job := todo[..|todo| - 1], todo[|todo| - 1];
      StartedAreDistinct(s, before, minute, tt);
      FireDueOne(s, before, minute, tt, job.id);
    }
  }

  lemma {:induction false} CountInDistinct<T>(s: seq<T>, x: T)
    requires Distinct(s)
    ensures multiset(s)[x] == if x in s then 1 else 0
  {
    if s != [] {
      var before, last := s[..|s| - 1], s[|s| - 1];
      assert s == before + [last];
      CountInDistinct(before, x);
      assert last !in before;
    }
  }

  lemma TickFiresExactly(s: Store, now: int, tt: Timetable, id: string)
    ensures id in Started(s, now, tt) <==>
            exists j | j in s.jobs :: j.id == id && j.enabled && Due(s, j, EpochMinute(now), tt)
    ensures multiset(Started(s, now, tt))[id] == if id in Started(s, now, tt) then 1 else 0
  {
    FireDueOne(s, Enabled(s.jobs), EpochMinute(now), tt, id);
    StartedAreDistinct(s, Enabled(s.jobs), EpochMinute(now), tt);
    CountInDistinct(Started(s, now, tt), id);
  }

  // ----- the store -----

  predicate DistinctJobs(jobs: seq<Job>) {
    forall i, j | 0 <= i < j < |jobs| :: jobs[i].id != jobs[j].id
  }

  // Every id in sight was given out, so a fresh one is nowhere.
  ghost predicate Ids(w: World) {
    && DistinctJobs(w.store.jobs)
    && (forall j | j in w.store.jobs :: j.id in w.used)
    && w.store.running <= w.used
    && (forall id | id in w.pending :: id in w.used)
    && w.history.Keys <= w.used
  }

  lemma TheJob(jobs: seq<Job>, j: Job)
    requires DistinctJobs(jobs) && j in jobs
    ensures IndexOf(jobs, j.id) < |jobs| && jobs[IndexOf(jobs, j.id)] == j
  {
    var k :| 0 <= k < |jobs| && jobs[k] == j;
    assert IndexOf(jobs, j.id) <= k;
  }

  lemma {:induction false} WithoutKeepsDistinct(jobs: seq<Job>, id: string)
    requires DistinctJobs(jobs)
    ensures DistinctJobs(Without(jobs, id))
  {
    if jobs != [] {
      var before, last := jobs[..|jobs| - 1], jobs[|jobs| - 1];
      WithoutKeepsDistinct(before, id);
      forall j | j in Without(before, id)
        ensures j.id != last.id
      {
        var k :| 0 <= k < |before| && before[k] == j;
        assert jobs[k].id != jobs[|jobs| - 1].id;
      }
    }
  }

  function Outcome(e: Event): Status {
    if e.Settle? then e.status else Skipped
  }

  // What one step does to a job and to what was recorded for it.
  predicate Carried(e: Event, tt: Timetable, j: Job, past: seq<Status>, j': Job, past': seq<Status>) {
    || (j' == j && past' == past)
    || (e.Update? && e.id == j.id && Updated(j, e.edit, e.now, tt) == Ok(j') && past' == past)
    || ((e.Settle? || e.CheckMissed?) && e.id == j.id
        && j' == Recorded(j, Outcome(e), e.now, tt) && past' == past + [Outcome(e)])
  }

  predicate Created(e: Event, tt: Timetable, j: Job) {
    e.Create? && tt.check(e.expr).None? && j == NewJob(e.id, e.expr, e.enabled, e.max, e.catchUp, e.now, tt)
  }

  lemma InUpdated(jobs: seq<Job>, i: nat, x: Job, j: Job)
    requires DistinctJobs(jobs) && i < |jobs| && x.id == jobs[i].id && j in jobs[i := x]
    ensures j == x || (j in jobs && j.id != x.id)
  {
    var k :| 0 <= k < |jobs| && jobs[i := x][k] == j;
    if k != i {
      assert jobs[k] == j;
    }
  }

  ghost predicate HasOrigin(w: World, e: Event, tt: Timetable, j': Job) {
    exists j | j in w.store.jobs :: j.id == j'.id && Carried(e, tt, j, Past(w, j.id), j', Past(Step(w, e, tt), j'.id))
  }

  // The step records an outcome for the job it names.
  predicate Writes(s: Store, e: Event) {
    && (e.Settle? || e.CheckMissed?) && IndexOf(s.jobs, e.id) < |s.jobs|
    && (e.CheckMissed? ==> Skips(s, e.id, e.since))
  }

  lemma RecordStep(w: World, e: Event, tt: Timetable)
    requires e.Settle? || e.CheckMissed?
    ensures var (jobs, w', i) := (w.store.jobs, Step(w, e, tt), IndexOf(w.store.jobs, e.id));
            if Writes(w.store, e)
            then w'.store.jobs == jobs[i := Recorded(jobs[i], Outcome(e), e.now, tt)] &&
                 w'.history == w.history[e.id := Past(w, e.id) + [Outcome(e)]]
            else w'.store.jobs == jobs && w'.history == w.history
  {
  }

  lemma RecordedOrigin(w: World, e: Event, tt: Timetable, j': Job)
    requires Ids(w) && (e.Settle? || e.CheckMissed?) && j' in Step(w, e, tt).store.jobs
    ensures HasOrigin(w, e, tt, j')
  {
    var jobs, w' := w.store.jobs, Step(w, e, tt);
    RecordStep(w, e, tt);
    if Writes(w.store, e) {
      var i := IndexOf(jobs, e.id);
      var x := Recorded(jobs[i], Outcome(e), e.now, tt);
      InUpdated(jobs, i, x, j');
      if j' == x {
        assert Carried(e, tt, jobs[i], Past(w, e.id), j', Past(w', j'.id));
        assert jobs[i] in jobs;
      } else {
        assert Carried(e, tt, j', Past(w, j'.id), j', Past(w', j'.id));
      }
    } else {
      assert Carried(e, tt, j', Past(w, j'.id), j', Past(w', j'.id));
    }
  }

  lemma EditedOrigin(w: World, e: Event, tt: Timetable, j': Job)
    requires Ids(w) && (e.Update? || e.Delete? || e.Tick? || e.BeginSweep?) && j' in Step(w, e, tt).store.jobs
    ensures HasOrigin(w, e, tt, j')
  {
    var s := w.store;
    if e.Tick? {
      FireDueOne(s, Enabled(s.jobs), EpochMinute(e.now), tt, "");
    }
    if j' in s.jobs {
      assert Carried(e, tt, j', Past(w, j'.id), j', Past(Step(w, e, tt), j'.id));
    } else {
      var i := IndexOf(s.jobs, e.id);
      InUpdated(s.jobs, i, Updated(s.jobs[i], e.edit, e.now, tt).value, j');
      assert Carried(e, tt, s.jobs[i], Past(w, e.id), j', Past(Step(w, e, tt), e.id));
    }
  }

  // Every job after a step was just created with a clean record, or carries on one that was there before.
  lemma JobOrigin(w: World, e: Event, tt: Timetable, j': Job)
    requires Ids(w) && Possible(w, e) && j' in Step(w, e, tt).store.jobs
    ensures (Created(e, tt, j') && Past(Step(w, e, tt), j'.id) == []) || HasOrigin(w, e, tt, j')
  {
    if e.Settle? || e.CheckMissed? {
      RecordedOrigin(w, e, tt, j');
    } else if !e.Create? {
      EditedOrigin(w, e, tt, j');
    } else if j' in w.store.jobs {
      assert Carried(e, tt, j', Past(w, j'.id), j', Past(Step(w, e, tt), j'.id));
    }
  }

  lemma UpdateKeepsDistinct(jobs: seq<Job>, i: nat, x: Job)
    requires DistinctJobs(jobs) && i < |jobs| && x.id == jobs[i].id
    ensures DistinctJobs(jobs[i := x])
    ensures forall j | j in jobs[i := x] :: j == x || j in jobs
  {
  }

  lemma RecordKeepsJobIds(w: World, id: string, status: Status, now: int, tt: Timetable)
    requires Ids(w)
    ensures DistinctJobs(Record(w.store, id, status, now, tt).jobs)
    ensures forall j | j in Record(w.store, id, status, now, tt).jobs :: j.id in w.used
    ensures Noted(w, id, status).Keys <= w.used
  {
    var jobs := w.store.jobs;
    var i := IndexOf(jobs, id);
    if i < |jobs| {
      assert jobs[i] in jobs;
      UpdateKeepsDistinct(jobs, i, Recorded(jobs[i], status, now, tt));
    }
  }

  lemma RecordKeepsIds(w: World, e: Event, tt: Timetable)
    requires Ids(w) && Possible(w, e) && (e.Settle? || e.CheckMissed?)
    ensures Ids(Step(w, e, tt))
  {
    RecordKeepsJobIds(w, e.id, Outcome(e), e.now, tt);
    var i := IndexOf(w.store.jobs, e.id);
    if i < |w.store.jobs| {
      assert w.store.jobs[i] in w.store.jobs;
    }
  }

  lemma EditKeepsIds(w: World, e: Event, tt: Timetable)
    requires Ids(w) && Possible(w, e) && (e.Create? || e.Update? || e.Delete?)
    ensures Ids(Step(w, e, tt))
  {
    var s := w.store;
    var i := IndexOf(s.jobs, e.id);
    if e.Delete? {
      WithoutKeepsDistinct(s.jobs, e.id);
    } else if e.Create? {
      assert forall j | j in s.jobs :: j.id != e.id;
    } else if i < |s.jobs| && Updated(s.jobs[i], e.edit, e.now, tt).Ok? {
      assert s.jobs[i] in s.jobs;
      UpdateKeepsDistinct(s.jobs, i, Updated(s.jobs[i], e.edit, e.now, tt).value);
    }
  }

  lemma StepKeepsIds(w: World, e: Event, tt: Timetable)
    requires Ids(w) && Possible(w, e)
    ensures Ids(Step(w, e, tt))
  {
    if e.Tick? {
      TickKeepsIds(w, e.now, tt);
    } else if e.Settle? || e.CheckMissed? {
      RecordKeepsIds(w, e, tt);
    } else if !e.BeginSweep? {
      EditKeepsIds(w, e, tt);
    }
  }

  lemma TickKeepsIds(w: World, now: int, tt: Timetable)
    requires Ids(w)
    ensures Ids(Step(w, Tick(now), tt))
  {
    var s, w' := w.store, Step(w, Tick(now), tt);
    FireDueOne(s, Enabled(s.jobs), EpochMinute(now), tt, "");
    forall id | id in w'.store.running || id in w'.pending
      ensures id in w.used
    {
      FireDueOne(s, Enabled(s.jobs), EpochMinute(now), tt, id);
      TickFiresExactly(s, now, tt, id);
    }
  }

  // ----- counters -----

  function Runs(h: seq<Status>): nat {
    if h == [] then 0 else Runs(h[..|h| - 1]) + if h[|h| - 1] == Skipped then 0 else 1
  }

  predicate Failure(status: Status) {
    status == Failed || status == TimedOut
  }

  function Failures(h: seq<Status>): nat {
    if h == [] then 0 else Failures(h[..|h| - 1]) + if Failure(h[|h| - 1]) then 1 else 0
  }

  // The outcomes that count: everything but skips.
  function Outcomes(h: seq<Status>): seq<Status> {
    if h == [] then []
    else Outcomes(h[..|h| - 1]) + if h[|h| - 1] == Skipped then [] else [h[|h| - 1]]
  }

  // k failures at the end, and no more than k.
  predicate TrailingFailures(h: seq<Status>, k: int) {
    var o := Outcomes(h);
    && 0 <= k <= |o|
    && (forall i | |o| - k <= i < |o| :: Failure(o[i]))
    && (k < |o| ==> o[|o| - k - 1] == Success)
  }

  // The counters of a job say what was recorded for it.
  predicate Honest(j: Job, past: seq<Status>) {
    && j.runCount == Runs(past) && j.failureCount == Failures(past) && TrailingFailures(past, j.consecutiveFailures)
  }

  lemma RecordIsHonest(j: Job, past: seq<Status>, status: Status, now: int, tt: Timetable)
    requires Honest(j, past)
    ensures Honest(Recorded(j, status, now, tt), past + [status])
  {
    assert (past + [status])[..|past|] == past;
  }

  lemma {:induction false} FailuresAreRuns(h: seq<Status>, k: int)
    ensures Failures(h) <= Runs(h) == |Outcomes(h)|
    ensures TrailingFailures(h, k) ==> k <= Failures(h)
  {
    if h != [] {
      var before, last, o := h[..|h| - 1], h[|h| - 1], Outcomes(h);
      FailuresAreRuns(before, if Failure(last) then k - 1 else k);
      if last == Skipped {
        assert o == Outcomes(before);
      } else if TrailingFailures(h, k) && k > 0 {
        assert Failure(o[|o| - 1]) && o[..|o| - 1] == Outcomes(before);
        assert TrailingFailures(before, k - 1);
      }
    }
  }

  ghost predicate AllHonest(w: World) {
    forall j | j in w.store.jobs :: Honest(j, Past(w, j.id))
  }

  lemma CarriedIsHonest(e: Event, tt: Timetable, j: Job, past: seq<Status>, j': Job, past': seq<Status>)
    requires Honest(j, past) && Carried(e, tt, j, past, j', past')
    ensures Honest(j', past')
  {
    if e.Settle? || e.CheckMissed? {
      RecordIsHonest(j, past, Outcome(e), e.now, tt);
    }
  }

  lemma StepIsHonest(w: World, e: Event, tt: Timetable)
    requires Ids(w) && Possible(w, e) && AllHonest(w)
    ensures AllHonest(Step(w, e, tt))
  {
    forall j' | j' in Step(w, e, tt).store.jobs
      ensures Honest(j', Past(Step(w, e, tt), j'.id))
    {
      JobOrigin(w, e, tt, j');
      if HasOrigin(w, e, tt, j') {
        OriginIsHonest(w, e, tt, j');
      }
    }
  }

  lemma OriginIsHonest(w: World, e: Event, tt: Timetable, j': Job)
    requires AllHonest(w) && HasOrigin(w, e, tt, j')
    ensures Honest(j', Past(Step(w, e, tt), j'.id))
  {
    var past' := Past(Step(w, e, tt), j'.id);
    var j :| j in w.store.jobs && j.id == j'.id && Carried(e, tt, j, Past(w, j.id), j', past');
    CarriedIsHonest(e, tt, j, Past(w, j.id), j', past');
  }

  // Over every run, the counters of every job say what was recorded for it since it was created: the runs, the failures
  // among them, and the failures since the last success, skips aside.
  lemma {:induction false} CountersAreHonest(events: seq<Event>, tt: Timetable)
    requires Run(events, tt)
    ensures Ids(After(events, tt)) && AllHonest(After(events, tt))
  {
    if events != [] {
      var before, e := events[..|events| - 1], events[|events| - 1];
      CountersAreHonest(before, tt);
      StepKeepsIds(After(before, tt), e, tt);
      StepIsHonest(After(before, tt), e, tt);
    }
  }

  lemma OneStreak(h: seq<Status>, k: int, l: int)
    requires TrailingFailures(h, k) && TrailingFailures(h, l)
    ensures k == l
  {
  }

  // A recorded failure leaves a job enabled exactly when it was, and the streak it makes is below the limit; any other
  // outcome leaves that alone. A limit of zero or less disables at the first failure.
  lemma DisabledAtTheLimit(j: Job, past: seq<Status>, status: Status, now: int, tt: Timetable, k: int)
    requires Honest(j, past) && TrailingFailures(past + [status], k)
    ensures Recorded(j, status, now, tt).enabled <==> j.enabled && (Failure(status) ==> k < j.maxConsecutiveFailures)
  {
    RecordIsHonest(j, past, status, now, tt);
    OneStreak(past + [status], k, Recorded(j, status, now, tt).consecutiveFailures);
  }

  // Updating a job, enabling it included, does not forget its streak: the next failure counts on from it.
  lemma ReenablingKeepsTheStreak(j: Job, past: seq<Status>, e: Edit, status: Status, t: int, now: int, tt: Timetable)
    requires Honest(j, past) && Failure(status) && Updated(j, e, t, tt).Ok?
    ensures var j' := Updated(j, e, t, tt).value;
            && Honest(j', past)
            && (Recorded(j', status, now, tt).enabled <==>
                j'.enabled && j.consecutiveFailures + 1 < j'.maxConsecutiveFailures)
  {
    RecordIsHonest(Updated(j, e, t, tt).value, past, status, now, tt);
  }
}
