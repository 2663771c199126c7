/** The job store and the tick loop of server/cronScheduler.ts, as functions on the scheduler's state. */
module SchedulerSpec {
  import opened Wrappers
  import opened NextRun
  import CronExpression

  datatype Status = Success | Failed | TimedOut | Skipped

  datatype Job = Job(id: string, cronExpression: string, enabled: bool, lastRunAt: Option<int>,
                     lastRunStatus: Option<Status>, nextRunAt: Option<int>, runCount: int, failureCount: int,
                     consecutiveFailures: int, maxConsecutiveFailures: int, catchUp: bool)

  // The fields an update may set, the record of the last run and the planned next one among them.
  datatype Edit = Edit(cronExpression: Option<string>, enabled: Option<bool>, maxConsecutiveFailures: Option<int>,
                       catchUp: Option<bool>, nextRunAt: Option<Option<int>>, lastRunAt: Option<Option<int>>,
                       lastRunStatus: Option<Option<Status>>)

  // The jobs, the ids now executing, and the minute in which each id last fired.
  datatype Store = Store(jobs: seq<Job>, running: set<string>, fired: map<string, int>)

  function EpochMinute(nowMs: int): int {
    nowMs / MINUTE_MS
  }

  // What the scheduler asks of an expression: what is wrong with it, if anything, whether it calls for a minute, and
  // when it is next due.
  datatype Timetable = Timetable(check: string -> Option<Failure>, calls: (string, int) -> bool,
                                 next: (string, int) -> Option<int>)

  function Check(expr: string): Option<Failure> {
    var parsed := CronExpression.Parsed(expr);
    if parsed.Err? then Some(Malformed(parsed.error)) else None
  }

  function Calls(expr: string, minute: int, civil: Clock): bool {
    var parsed := CronExpression.Parsed(expr);
    parsed.Ok? && CronExpression.Matches(parsed.value, civil(minute))
  }

  function NextRunAt(expr: string, now: int, civil: Clock): Option<int> {
    var next := NextRunFrom(expr, now, civil);
    if next.Ok? then Some(next.value) else None
  }

  // The timetable of cron expressions.
  function Cron(civil: Clock): Timetable {
    Timetable(expr => Check(expr), (expr, minute) => Calls(expr, minute, civil),
              (expr, now) => NextRunAt(expr, now, civil))
  }

  function NewJob(id: string, expr: string, enabled: bool, max: int, catchUp: bool, now: int, tt: Timetable): Job {
    Job(id, expr, enabled, None, None, tt.next(expr, now), 0, 0, 0, max, catchUp)
  }

  // ----- the job list -----

  function IndexOf(jobs: seq<Job>, id: string): (i: nat)
    ensures i <= |jobs| && (i < |jobs| ==> jobs[i].id == id) && forall k | 0 <= k < i :: jobs[k].id != id
  {
    if jobs == [] || jobs[0].id == id then 0 else 1 + IndexOf(jobs[1..], id)
  }

  function Without(jobs: seq<Job>, id: string): (rest: seq<Job>)
    ensures forall j | j in rest :: j in jobs && j.id != id
    ensures forall j | j in jobs && j.id != id :: j in rest
    ensures |rest| <= |jobs|
  {
    if jobs == [] then []
    else
      var rest := Without(jobs[..|jobs| - 1], id);
      var last := jobs[|jobs| - 1];
      assert jobs == jobs[..|jobs| - 1] + [last];
      if last.id == id then rest else rest + [last]
  }

  lemma {:induction false} WithoutIsShorter(jobs: seq<Job>, id: string)
    ensures |Without(jobs, id)| == |jobs| <==> forall j | j in jobs :: j.id != id
    ensures |Without(jobs, id)| == |jobs| ==> Without(jobs, id) == jobs
  {
    if jobs != [] {
      WithoutIsShorter(jobs[..|jobs| - 1], id);
      assert jobs == jobs[..|jobs| - 1] + [jobs[|jobs| - 1]];
    }
  }

  function Enabled(jobs: seq<Job>): (on: seq<Job>)
    ensures forall j | j in on :: j in jobs && j.enabled
    ensures forall j | j in jobs && j.enabled :: j in on
  {
    if jobs == [] then []
    else
      var on := Enabled(jobs[..|jobs| - 1]);
      var last := jobs[|jobs| - 1];
      assert jobs == jobs[..|jobs| - 1] + [last];
      if last.enabled then on + [last] else on
  }

  // The given fields replace those of the job.
  function Spread(job: Job, e: Edit): Job {
    job.(cronExpression := e.cronExpression.UnwrapOr(job.cronExpression),
         enabled := e.enabled.UnwrapOr(job.enabled),
         maxConsecutiveFailures := e.maxConsecutiveFailures.UnwrapOr(job.maxConsecutiveFailures),
         catchUp := e.catchUp.UnwrapOr(job.catchUp),
         nextRunAt := e.nextRunAt.UnwrapOr(job.nextRunAt),
         lastRunAt := e.lastRunAt.UnwrapOr(job.lastRunAt),
         lastRunStatus := e.lastRunStatus.UnwrapOr(job.lastRunStatus))
  }

  // An update: the new expression is checked and rescheduled only when it is not empty.
  function Updated(job: Job, e: Edit, now: int, tt: Timetable): Result<Job, Failure> {
    var edited := Spread(job, e);
    if e.cronExpression.None? || e.cronExpression.value == "" then Ok(edited)
    else
      match tt.check(e.cronExpression.value)
      case Some(failure) => Err(failure)
      case None => Ok(edited.(nextRunAt := tt.next(edited.cronExpression, now)))
  }

  // ----- recording an execution -----

  function Counted(job: Job, status: Status): Job {
    match status
    case Success => job.(runCount := job.runCount + 1, consecutiveFailures := 0)
    case Skipped => job
    case _ =>
      var streak := job.consecutiveFailures + 1;
      job.(runCount := job.runCount + 1, failureCount := job.failureCount + 1, consecutiveFailures := streak,
           enabled := job.enabled && streak < job.maxConsecutiveFailures)
  }

  function Recorded(job: Job, status: Status, now: int, tt: Timetable): Job {
    var counted := Counted(job.(lastRunAt := Some(now), lastRunStatus := Some(status)), status);
    counted.(nextRunAt := if counted.enabled then tt.next(job.cronExpression, now) else None)
  }

  // A job that is gone is left alone: recordExecution throws before it writes.
  function Record(s: Store, id: string, status: Status, now: int, tt: Timetable): Store {
    var i := IndexOf(s.jobs, id);
    if i == |s.jobs| then s else s.(jobs := s.jobs[i := Recorded(s.jobs[i], status, now, tt)])
  }

  // The end of an execution: record it, then free the slot.
  function Settled(s: Store, id: string, status: Status, now: int, tt: Timetable): Store {
    Record(s, id, status, now, tt).(running := s.running - {id})
  }

  // ----- one tick -----

  predicate Due(s: Store, job: Job, minute: int, tt: Timetable) {
    && tt.calls(job.cronExpression, minute)
    && !(job.id in s.fired && s.fired[job.id] == minute)
    && job.id !in s.running
  }

  function Fire(s: Store, id: string, minute: int): Store {
    s.(running := s.running + {id}, fired := s.fired[id := minute])
  }

  // The store after the loop over some jobs, and the ids fired, in order.
  function FireDue(s: Store, todo: seq<Job>, minute: int, tt: Timetable): (Store, seq<string>) {
    if todo == [] then (s, [])
    else
      var (s', started) := FireDue(s, todo[..|todo| - 1], minute, tt);
      var job := todo[|todo| - 1];
      if Due(s', job, minute, tt) then (Fire(s', job.id, minute), started + [job.id]) else (s', started)
  }

  function Pruned(fired: map<string, int>, minute: int): map<string, int> {
    map id | id in fired && minute - fired[id] <= 1 :: fired[id]
  }

  function TickStore(s: Store, nowMs: int, tt: Timetable): Store {
    var s' := FireDue(s, Enabled(s.jobs), EpochMinute(nowMs), tt).0;
    s'.(fired := Pruned(s'.fired, EpochMinute(nowMs)))
  }

  function Started(s: Store, nowMs: int, tt: Timetable): seq<string> {
    FireDue(s, Enabled(s.jobs), EpochMinute(nowMs), tt).1
  }

  // ----- runs missed while the server was down -----

  // The startup loop reads the clock once, when it begins: every turn compares with that time.
  predicate Missed(job: Job, since: int) {
    job.enabled && job.nextRunAt.Some? && job.nextRunAt.value < since
  }

  predicate CatchesUp(s: Store, id: string, since: int) {
    var i := IndexOf(s.jobs, id);
    i < |s.jobs| && Missed(s.jobs[i], since) && s.jobs[i].catchUp
  }

  predicate Skips(s: Store, id: string, since: int) {
    var i := IndexOf(s.jobs, id);
    i < |s.jobs| && Missed(s.jobs[i], since) && !s.jobs[i].catchUp
  }

  function CheckMissed(s: Store, id: string, since: int, now: int, tt: Timetable): Store {
    if CatchesUp(s, id, since) then s.(running := s.running + {id})
    else if Skips(s, id, since) then Record(s, id, Skipped, now, tt)
    else s
  }
}
