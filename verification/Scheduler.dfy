/** The scheduler's job store and loop, kept in step with SchedulerSpec. One clock reading serves a whole call. */
module CronSchedulerModel {
  import opened Wrappers
  import opened NextRun
  import opened SchedulerSpec
  import CronExpression

  class CronScheduler {
    var jobs: seq<Job>
    var running: set<string>
    var fired: map<string, int>
    const civil: Clock

    ghost function View(): Store
      reads this
    {
      Store(jobs, running, fired)
    }

    constructor (civil: Clock)
      ensures View() == Store([], {}, map[]) && this.civil == civil
    {
      jobs, running, fired := [], {}, map[];
      this.civil := civil;
    }

    method FindIndex(id: string) returns (idx: nat)
      ensures idx == IndexOf(jobs, id)
    {
      idx := 0;
      while idx < |jobs| && jobs[idx].id != id
        invariant idx <= |jobs|
        invariant forall k | 0 <= k < idx :: jobs[k].id != id
      {
        idx := idx + 1;
      }
    }

    // The planned run after now, or none when the search throws.
    method Plan(expr: string, now: int) returns (next: Option<int>)
      ensures next == NextRunAt(expr, now, civil)
    {
      var r := GetNextRunTime(expr, now, civil);
      return if r.Ok? then Some(r.value) else None;
    }

    // ----- the store -----

    method CreateCronJob(id: string, expr: string, enabled: bool, max: int, catchUp: bool, now: int)
      returns (r: Result<Job, Failure>)
      modifies this`jobs
      ensures r == (match Cron(civil).check(expr)
                    case Some(failure) => Err(failure)
                    case None => Ok(NewJob(id, expr, enabled, max, catchUp, now, Cron(civil))))
      ensures jobs == old(jobs) + if r.Ok? then [r.value] else []
    {
      var parsed := CronExpression.ParseCron(expr);
      if parsed.Err? {
        return Err(Malformed(parsed.error));
      }
      var next := Plan(expr, now);
      var job := Job(id, expr, enabled, None, None, next, 0, 0, 0, max, catchUp);
      jobs := jobs + [job];
      return Ok(job);
    }

    // None when there is no such job.
    method UpdateCronJob(id: string, e: Edit, now: int) returns (r: Option<Result<Job, Failure>>)
      modifies this`jobs
      ensures var i := IndexOf(old(jobs), id);
              if i == |old(jobs)| then r.None? && jobs == old(jobs)
              else r == Some(Updated(old(jobs)[i], e, now, Cron(civil))) &&
                   jobs == if r.value.Ok? then old(jobs)[i := r.value.value] else old(jobs)
    {
      var idx := FindIndex(id);
      if idx == |jobs| {
        return None;
      }
      var job := Spread(jobs[idx], e);
      if e.cronExpression.Some? && e.cronExpression.value != "" {
        var parsed := CronExpression.ParseCron(e.cronExpression.value);
        if parsed.Err? {
          return Some(Err(Malformed(parsed.error)));
        }
        var next := Plan(job.cronExpression, now);
        job := job.(nextRunAt := next);
      }
      jobs := jobs[idx := job];
      return Some(Ok(job));
    }

    method DeleteCronJob(id: string) returns (found: bool)
      modifies this`jobs, this`running
      ensures found == (IndexOf(old(jobs), id) < |old(jobs)|)
      ensures jobs == if found then Without(old(jobs), id) else old(jobs)
      ensures running == if found then old(running) - {id} else old(running)
    {
      var before := |jobs|;
      WithoutIsShorter(jobs, id);
      FoundIff(id);
      jobs := KeepOthers(id);
      if |jobs| == before {
        return false;
      }
      running := running - {id};
      return true;
    }

    lemma FoundIff(id: string)
      ensures IndexOf(jobs, id) == |jobs| <==> forall j | j in jobs :: j.id != id
    {
    }

    method KeepOthers(id: string) returns (kept: seq<Job>)
      ensures kept == Without(jobs, id)
    {
      kept := [];
      for i := 0 to |jobs|
        invariant kept == Without(jobs[..i], id)
      {
        assert jobs[..i + 1][..i] == jobs[..i];
        if jobs[i].id != id {
          kept := kept + [jobs[i]];
        }
      }
      assert jobs[..|jobs|] == jobs;
    }

    // ----- recording -----

    static method CountOutcome(before: Job, status: Status, now: int) returns (job: Job)
      ensures job == Counted(before.(lastRunAt := Some(now), lastRunStatus := Some(status)), status)
    {
      job := before.(lastRunAt := Some(now), lastRunStatus := Some(status));
      if status == Success {
        job := job.(runCount := job.runCount + 1, consecutiveFailures := 0);
      } else if status == Failed || status == TimedOut {
        job := job.(runCount := job.runCount + 1, failureCount := job.failureCount + 1,
                    consecutiveFailures := job.consecutiveFailures + 1);
        if job.consecutiveFailures >= job.maxConsecutiveFailures {
          job := job.(enabled := false);
        }
      }
    }

    method RecordExecution(id: string, status: Status, now: int) returns (found: bool)
      modifies this`jobs
      ensures View() == Record(old(View()), id, status, now, Cron(civil))
      ensures found == (IndexOf(old(jobs), id) < |old(jobs)|)
    {
      var idx := FindIndex(id);
      if idx == |jobs| {
        return false;
      }
      var job := CountOutcome(jobs[idx], status, now);
      if job.enabled {
        var next := Plan(job.cronExpression, now);
        job := job.(nextRunAt := next);
      } else {
        job := job.(nextRunAt := None);
      }
      jobs := jobs[idx := job];
      return true;
    }

    // The end of an execution, whether or not its job still exists.
    method Settle(id: string, status: Status, now: int)
      modifies this`jobs, this`running
      ensures View() == Settled(old(View()), id, status, now, Cron(civil))
    {
      var found := RecordExecution(id, status, now);
      running := running - {id};
    }

    // ----- the loop -----

    method GetEnabledJobs() returns (on: seq<Job>)
      ensures on == Enabled(jobs)
    {
      on := [];
      for i := 0 to |jobs|
        invariant on == Enabled(jobs[..i])
      {
        assert jobs[..i + 1][..i] == jobs[..i];
        if jobs[i].enabled {
          on := on + [jobs[i]];
        }
      }
      assert jobs[..|jobs|] == jobs;
    }

    method IsCalled(expr: string, epochMinute: int) returns (called: bool)
      ensures called == Calls(expr, epochMinute, civil)
    {
      var matcher := CronExpression.ParseCron(expr);
      return matcher.Ok? && CronExpression.Matches(matcher.value, civil(epochMinute));
    }

    // The body of the tick loop. The execution itself runs on and ends in a Settle.
    method FireIfDue(job: Job, epochMinute: int) returns (fires: bool)
      modifies this`running, this`fired
      ensures fires == Due(old(View()), job, epochMinute, Cron(civil))
      ensures View() == if fires then Fire(old(View()), job.id, epochMinute) else old(View())
    {
      var called := IsCalled(job.cronExpression, epochMinute);
      if !called {
        return false;
      }
      if job.id in fired && fired[job.id] == epochMinute {
        return false;
      }
      if job.id in running {
        return false;
      }
      fired := fired[job.id := epochMinute];
      running := running + {job.id};
      return true;
    }

    // The ids of the executions started, in order.
    method Tick(nowMs: int) returns (started: seq<string>)
      modifies this`running, this`fired
      ensures View() == TickStore(old(View()), nowMs, Cron(civil))
      ensures started == Started(old(View()), nowMs, Cron(civil))
    {
      var epochMinute := nowMs / MINUTE_MS;
      var enabled := GetEnabledJobs();
      started := [];
      for i := 0 to |enabled|
        invariant jobs == old(jobs)
        invariant FireDue(old(View()), enabled[..i], epochMinute, Cron(civil)) == (View(), started)
      {
        assert enabled[..i + 1][..i] == enabled[..i];
        var fires := FireIfDue(enabled[i], epochMinute);
        if fires {
          started := started + [enabled[i].id];
        }
      }
      assert enabled[..|enabled|] == enabled;
      Prune(epochMinute);
    }

    method Prune(epochMinute: int)
      modifies this`fired
      ensures fired == Pruned(old(fired), epochMinute)
    {
      var entries := fired.Keys;
      while entries != {}
        invariant entries <= fired.Keys
        invariant fired == map id | id in old(fired) && (id in entries || epochMinute - old(fired)[id] <= 1) ::
                    old(fired)[id]
        decreases |entries|
      {
        var jobId :| jobId in entries;
        if epochMinute - fired[jobId] > 1 {
          fired := fired - {jobId};
        }
        entries := entries - {jobId};
      }
    }

    // One turn of the startup loop, which began at some earlier time: a missed job is caught up with, or a skip is
    // recorded.
    method CheckMissed(id: string, since: int, now: int) returns (execute: bool)
      modifies this`jobs, this`running
      ensures View() == SchedulerSpec.CheckMissed(old(View()), id, since, now, Cron(civil))
      ensures execute == CatchesUp(old(View()), id, since)
    {
      var idx := FindIndex(id);
      if idx == |jobs| || !jobs[idx].enabled || jobs[idx].nextRunAt.None? {
        return false;
      }
      if jobs[idx].nextRunAt.value < since {
        if jobs[idx].catchUp {
          running := running + {id};
          return true;
        }
        var found := RecordExecution(id, Skipped, now);
      }
      return false;
    }
  }
}
