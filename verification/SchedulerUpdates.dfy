/** What updates of a job do: every given field takes effect, and a job switched off is not started again. */
module SchedulerUpdates {
  import opened Wrappers
  import opened SchedulerSpec
  import opened SchedulerRuns
  import opened SchedulerSafety
  import SchedulerFiring

  // The value the field has afterwards: the one given, or the one it had.
  ghost predicate Takes<T>(given: Option<T>, before: T, after: T) {
    (given.Some? ==> after == given.value) && (given.None? ==> after == before)
  }

  ghost predicate NewExpression(e: Edit) {
    e.cronExpression.Some? && e.cronExpression.value != ""
  }

  // An update is refused exactly for a new expression that is not valid. Otherwise every given field has the given
  // value and every other one the value it had, only that a new expression brings its own plan; identity and counters
  // stay.
  lemma UpdateTakesEffect(j: Job, e: Edit, now: int, tt: Timetable)
    ensures Updated(j, e, now, tt).Err? <==> NewExpression(e) && tt.check(e.cronExpression.value).Some?
    ensures Updated(j, e, now, tt).Ok? ==>
              var j' := Updated(j, e, now, tt).value;
              && Takes(e.enabled, j.enabled, j'.enabled)
              && Takes(e.cronExpression, j.cronExpression, j'.cronExpression)
              && Takes(e.maxConsecutiveFailures, j.maxConsecutiveFailures, j'.maxConsecutiveFailures)
              && Takes(e.catchUp, j.catchUp, j'.catchUp)
              && Takes(e.lastRunAt, j.lastRunAt, j'.lastRunAt)
              && Takes(e.lastRunStatus, j.lastRunStatus, j'.lastRunStatus)
              && (!NewExpression(e) ==> Takes(e.nextRunAt, j.nextRunAt, j'.nextRunAt))
              && (NewExpression(e) ==> j'.nextRunAt == tt.next(e.cronExpression.value, now))
              && j'.id == j.id && j'.runCount == j.runCount && j'.failureCount == j.failureCount
              && j'.consecutiveFailures == j.consecutiveFailures
  {
  }

  // A job is created as it was asked for, with its first plan and nothing on record; exactly an invalid expression is
  // refused.
  lemma CreatedAsAsked(w: World, e: Event, tt: Timetable)
    requires Ids(w) && Possible(w, e) && e.Create?
    ensures var jobs, jobs' := w.store.jobs, Step(w, e, tt).store.jobs;
            if tt.check(e.expr).Some? then jobs' == jobs
            else
              && |jobs'| == |jobs| + 1 && jobs'[..|jobs|] == jobs
              && var j := jobs'[|jobs|];
                 && j.id == e.id && j.cronExpression == e.expr && j.enabled == e.enabled && j.catchUp == e.catchUp
                 && j.maxConsecutiveFailures == e.max && j.nextRunAt == tt.next(e.expr, e.now)
                 && j.lastRunAt == None && j.lastRunStatus == None
                 && j.runCount == j.failureCount == j.consecutiveFailures == 0
  {
  }

  // ----- executions -----

  // A recorded outcome is the last one on record, with its time; a job left enabled is planned anew, any other has no
  // plan, and what else the job is stays.
  lemma RecordedExactly(j: Job, status: Status, now: int, tt: Timetable)
    ensures var j' := Recorded(j, status, now, tt);
            && j'.lastRunAt == Some(now) && j'.lastRunStatus == Some(status)
            && j'.nextRunAt == (if j'.enabled then tt.next(j.cronExpression, now) else None)
            && j'.id == j.id && j'.cronExpression == j.cronExpression && j'.catchUp == j.catchUp
            && j'.maxConsecutiveFailures == j.maxConsecutiveFailures
  {
  }

  // A turn of the startup loop starts its job exactly when that is enabled, catches up, and was planned before the loop
  // began; one that does not catch up has a skip recorded instead, and any other job is left alone.
  lemma TurnExactly(w: World, j: Job, since: int, now: int, tt: Timetable)
    requires Ids(w) && j in w.store.jobs
    ensures var w' := Step(w, CheckMissed(j.id, since, now), tt);
            var missed := j.enabled && j.nextRunAt.Some? && j.nextRunAt.value < since;
            && w'.pending == w.pending + (if missed && j.catchUp then multiset{j.id} else multiset{})
            && w'.store.running == w.store.running + (if missed && j.catchUp then {j.id} else {})
            && w'.store == (if missed && !j.catchUp then Record(w.store, j.id, Skipped, now, tt)
                            else w.store.(running := w'.store.running))
  {
    TheJob(w.store.jobs, j);
  }

  // ----- order -----

  // Ascending positions in a sequence.
  ghost predicate Ascending(at: seq<nat>, length: nat) {
    && (forall k | 0 <= k < |at| :: at[k] < length)
    && forall k, l | 0 <= k < l < |at| :: at[k] < at[l]
  }

  lemma {:induction false} EnabledInOrder(jobs: seq<Job>) returns (at: seq<nat>)
    ensures Ascending(at, |jobs|) && |at| == |Enabled(jobs)|
    ensures forall k | 0 <= k < |at| :: Enabled(jobs)[k] == jobs[at[k]]
  {
    if jobs == [] {
      at := [];
    } else {
      at := EnabledInOrder(jobs[..|jobs| - 1]);
      if jobs[|jobs| - 1].enabled {
        at := at + [|jobs| - 1];
      }
    }
  }

  lemma {:induction false} FiredInOrder(s: Store, todo: seq<Job>, minute: int, tt: Timetable) returns (at: seq<nat>)
    ensures var started := FireDue(s, todo, minute, tt).1;
            Ascending(at, |todo|) && |at| == |started| && forall k | 0 <= k < |at| :: started[k] == todo[at[k]].id
  {
    if todo == [] {
      at := [];
    } else {
      at := FiredInOrder(s, todo[..|todo| - 1], minute, tt);
      if |FireDue(s, todo, minute, tt).1| > |at| {
        at := at + [|todo| - 1];
      }
    }
  }

  // A tick starts its jobs in the order of the job list.
  lemma StartedInOrder(s: Store, now: int, tt: Timetable) returns (at: seq<nat>)
    ensures Ascending(at, |s.jobs|) && |at| == |Started(s, now, tt)|
    ensures forall k | 0 <= k < |at| :: Started(s, now, tt)[k] == s.jobs[at[k]].id
  {
    var p := EnabledInOrder(s.jobs);
    var q := FiredInOrder(s, Enabled(s.jobs), EpochMinute(now), tt);
    at := seq(|q|, k requires 0 <= k < |q| => p[q[k]]);
  }

  // A deletion keeps the others, in their order.
  lemma {:induction false} OthersInOrder(jobs: seq<Job>, id: string) returns (at: seq<nat>)
    ensures Ascending(at, |jobs|) && |at| == |Without(jobs, id)|
    ensures forall k | 0 <= k < |at| :: Without(jobs, id)[k] == jobs[at[k]]
  {
    if jobs == [] {
      at := [];
    } else {
      at := OthersInOrder(jobs[..|jobs| - 1], id);
      if jobs[|jobs| - 1].id != id {
        at := at + [|jobs| - 1];
      }
    }
  }

  // ----- a job that is switched off -----

  // The id was given out, and no enabled job has it: its job is disabled or deleted.
  ghost predicate Off(w: World, id: string) {
    id in w.used && forall j | j in w.store.jobs && j.id == id :: !j.enabled
  }

  predicate Enables(e: Event, id: string) {
    e.Update? && e.id == id && e.edit.enabled == Some(true)
  }

  lemma OffStaysOff(w: World, e: Event, tt: Timetable, id: string)
    requires Ids(w) && Possible(w, e) && Off(w, id) && !Enables(e, id)
    ensures Off(Step(w, e, tt), id)
  {
    forall j' | j' in Step(w, e, tt).store.jobs && j'.id == id
      ensures !j'.enabled
    {
      JobOrigin(w, e, tt, j');
      if HasOrigin(w, e, tt, j') {
        OriginIsOff(w, e, tt, j');
      }
    }
  }

  lemma OriginIsOff(w: World, e: Event, tt: Timetable, j': Job)
    requires Off(w, j'.id) && !Enables(e, j'.id) && HasOrigin(w, e, tt, j')
    ensures !j'.enabled
  {
    var past' := Past(Step(w, e, tt), j'.id);
    var j :| j in w.store.jobs && j.id == j'.id && Carried(e, tt, j, Past(w, j.id), j', past');
    if e.Update? && j' != j {
      UpdateTakesEffect(j, e.edit, e.now, tt);
    }
  }

  // A step starts no execution of a job that is off.
  lemma OffStep(w: World, e: Event, tt: Timetable, id: string)
    requires Ids(w) && Possible(w, e) && Off(w, id)
    ensures var w' := Step(w, e, tt);
            && w.firings <= w'.firings && (forall f | f in w'.firings[|w.firings|..] :: f.id != id)
            && w'.pending[id] <= w.pending[id]
  {
    if e.Tick? {
      TickFiresExactly(w.store, e.now, tt, id);
    } else {
      SchedulerFiring.OthersFireNothing(w, e, tt);
      if e.CheckMissed? && e.id == id {
        var i := IndexOf(w.store.jobs, id);
        assert i < |w.store.jobs| ==> w.store.jobs[i] in w.store.jobs;
      }
    }
  }

  lemma LaterFirings(a: seq<Firing>, b: seq<Firing>, c: seq<Firing>, id: string)
    requires a <= b <= c
    requires (forall f | f in b[|a|..] :: f.id != id) && (forall f | f in c[|b|..] :: f.id != id)
    ensures forall f | f in c[|a|..] :: f.id != id
  {
    assert c[|a|..] == b[|a|..] + c[|b|..];
  }

  // From the moment a job is disabled or deleted, no tick fires it and no startup loop catches up with it, until an
  // update enables it.
  lemma {:induction false} OffIsNotStarted(events: seq<Event>, more: seq<Event>, id: string, tt: Timetable)
    requires Run(events + more, tt) && Run(events, tt) && Off(After(events, tt), id)
    requires forall e | e in more :: !Enables(e, id)
    ensures Off(After(events + more, tt), id)
    ensures var w, w' := After(events, tt), After(events + more, tt);
            && w.firings <= w'.firings && (forall f | f in w'.firings[|w.firings|..] :: f.id != id)
            && w'.pending[id] <= w.pending[id]
    decreases |more|
  {
    hide Step, Off, Ids, Possible;
    if more == [] {
      assert events + more == events;
    } else {
      var before, e := more[..|more| - 1], more[|more| - 1];
      var all := events + before;
      assert events + more == all + [e] && (all + [e])[..|all|] == all && e in more;
      OffIsNotStarted(events, before, id, tt);
      SchedulerFiring.RunKeepsIds(all, tt);
      OffStaysOff(After(all, tt), e, tt, id);
      OffStep(After(all, tt), e, tt, id);
      LaterFirings(After(events, tt).firings, After(all, tt).firings, After(all + [e], tt).firings, id);
    }
  }

  // An update that disables a job, and a deletion, switch it off.
  lemma SwitchedOff(w: World, e: Event, tt: Timetable)
    requires Ids(w) && Possible(w, e) && (e.Update? || e.Delete?) && IndexOf(w.store.jobs, e.id) < |w.store.jobs|
    requires e.Update? ==> e.edit.enabled == Some(false) &&
                            Updated(w.store.jobs[IndexOf(w.store.jobs, e.id)], e.edit, e.now, tt).Ok?
    ensures Off(Step(w, e, tt), e.id)
  {
    var jobs, i := w.store.jobs, IndexOf(w.store.jobs, e.id);
    assert jobs[i] in jobs;
    if e.Update? {
      var x := Updated(jobs[i], e.edit, e.now, tt).value;
      UpdateTakesEffect(jobs[i], e.edit, e.now, tt);
      forall j | j in jobs[i := x] && j.id == e.id
        ensures !j.enabled
      {
        InUpdated(jobs, i, x, j);
      }
    }
  }
}
