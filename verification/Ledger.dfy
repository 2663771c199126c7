/** The durable run ledger of server/durableExecution.ts.

    The three directories on disk (runs, idempotency index, claim locks) are maps, and every operation is
    described by the list of disk writes it performs, in order. A process that dies in the middle of an
    operation leaves the disk after some prefix of that list. */
module LedgerModel {
  import opened Wrappers

  datatype RunStatus = Running | Completed | Failed | Cancelled | Interrupted
  datatype StepStatus = StepStarted | StepCompleted | StepFailed | StepSkipped

  // A process as the ledger names it: a pid the system may reuse and a token no other process ever has.
  // A zero pid or an empty token stands for an absent field.
  datatype Owner = Owner(pid: nat, token: string)

  datatype StepRecord = StepRecord(stepId: string, status: StepStatus, key: string, firstSeenAt: int, updatedAt: int)

  datatype EventKind =
    | RunStarted | DuplicateStart | RecoveryRequiresReview | SafePreExecutionResume
    | StepRecorded | StepDuplicateOrUpdate | RunMarked(status: RunStatus)

  datatype Event = Event(timestamp: int, kind: EventKind, stepId: Option<string>)

  datatype Run = Run(
    workflowId: string, idempotencyKey: string, conversationId: string,
    status: RunStatus, attempts: nat, createdAt: int, updatedAt: int, currentStep: Option<string>,
    steps: seq<StepRecord>, events: seq<Event>, owner: Owner)

  // A lock file exists empty before its holder is written into it.
  datatype Lock = Torn | Held(owner: Owner)

  datatype Disk = Disk(runs: map<string, Run>, index: map<string, string>, locks: map<string, Lock>)

  datatype Write =
    | PutRun(run: Run)
    | PutIndex(key: string, workflowId: string)
    | CreateLock(workflowId: string)
    | FillLock(workflowId: string, owner: Owner)
    | DropLock(workflowId: string)

  function Apply(d: Disk, w: Write): Disk {
    match w
    case PutRun(r) => d.(runs := d.runs[r.workflowId := r])
    case PutIndex(k, id) => d.(index := d.index[k := id])
    case CreateLock(id) => d.(locks := d.locks[id := Torn])
    case FillLock(id, o) => d.(locks := d.locks[id := Held(o)])
    case DropLock(id) => d.(locks := d.locks - {id})
  }

  ghost function ApplyAll(d: Disk, ws: seq<Write>): Disk
    decreases |ws|
  {
    if ws == [] then d else ApplyAll(Apply(d, ws[0]), ws[1..])
  }

  // The operating system's process table: ledger processes and everything else.
  datatype Os = Os(live: set<Owner>, foreign: set<nat>) {
    ghost predicate Valid() {
      && (forall p <- live :: p.pid > 0 && p.token != "" && p.pid !in foreign)
      && (forall p <- live, q <- live :: p.pid == q.pid ==> p == q)
    }

    predicate PidInUse(pid: nat) {
      pid in foreign || exists p <- live :: p.pid == pid
    }
  }

  predicate OwnerAlive(os: Os, me: Owner, o: Owner) {
    if o.pid == 0 || o.token == "" then false
    else if o.pid == me.pid then o.token == me.token
    else os.PidInUse(o.pid)
  }

  const SAFE_STEPS := ["orchestrator.accepted", "memory.recall", "skills.match"]

  predicate CanResumeRun(run: Run) {
    forall i | 0 <= i < |run.steps| :: run.steps[i].stepId in SAFE_STEPS
  }

  datatype BeginInput = BeginInput(workflowId: string, idempotencyKey: string, conversationId: string)
  datatype StepInput = StepInput(workflowId: string, stepId: string, status: StepStatus, key: string)

  datatype BeginOutcome =
    | Created(run: Run) | Duplicate(run: Run)
    | WorkflowConflict | InterruptedExecution | AlreadyActive | UnreadableLock

  // ----- begin -----

  function Bumped(run: Run, now: int): Run {
    run.(attempts := run.attempts + 1, updatedAt := now, events := run.events + [Event(now, DuplicateStart, None)])
  }

  function Quarantined(run: Run, now: int): Run {
    run.(status := Interrupted, events := run.events + [Event(now, RecoveryRequiresReview, None)])
  }

  function Resumed(run: Run, me: Owner, now: int): Run {
    run.(owner := me, events := run.events + [Event(now, SafePreExecutionResume, None)])
  }

  function FreshRun(input: BeginInput, me: Owner, now: int): Run {
    Run(input.workflowId, input.idempotencyKey, input.conversationId, Running, 1, now, now, None, [],
        [Event(now, RunStarted, None)], me)
  }

  function Claim(id: string, me: Owner): seq<Write> {
    [CreateLock(id), FillLock(id, me)]
  }

  // The run a begin looks at: an index entry wins unless it is empty.
  function LookedUp(d: Disk, input: BeginInput): string {
    if input.idempotencyKey in d.index && d.index[input.idempotencyKey] != "" then d.index[input.idempotencyKey]
    else input.workflowId
  }

  predicate SameRequest(run: Run, input: BeginInput) {
    && run.idempotencyKey == input.idempotencyKey
    && run.conversationId == input.conversationId
    && run.workflowId == input.workflowId
  }

  // A begin that finds the run but no index entry writes the entry again.
  function Repair(d: Disk, input: BeginInput): seq<Write> {
    if input.idempotencyKey in d.index then [] else [PutIndex(input.idempotencyKey, input.workflowId)]
  }

  function Release(d: Disk, id: string): seq<Write> {
    if id in d.locks then [DropLock(id)] else []
  }

  function ExistingPlan(d: Disk, os: Os, me: Owner, input: BeginInput,
                        existing: Run, now: int): (seq<Write>, BeginOutcome) {
    var bumped := Bumped(existing, now);
    if existing.status == Running && !OwnerAlive(os, me, existing.owner) then
      if !CanResumeRun(existing) then
        (Repair(d, input) + [PutRun(Quarantined(bumped, now))], InterruptedExecution)
      else
        var id := input.workflowId;
        var run := Resumed(bumped, me, now);
        (Repair(d, input) + Release(d, id) + Claim(id, me) + [PutRun(run)], Created(run))
    else
      (Repair(d, input) + [PutRun(bumped)], Duplicate(bumped))
  }

  // A lock whose holder is dead is dropped before the new claim.
  // The writes of a claim and, if it is refused, the error.
  function ClaimPlan(d: Disk, os: Os, me: Owner, id: string): (seq<Write>, Option<BeginOutcome>) {
    if id !in d.locks then (Release(d, id) + Claim(id, me), None)
    else if d.locks[id] == Torn then ([], Some(UnreadableLock))
    else if OwnerAlive(os, me, d.locks[id].owner) then ([], Some(AlreadyActive))
    else (Release(d, id) + Claim(id, me), None)
  }

  function FreshPlan(d: Disk, os: Os, me: Owner, input: BeginInput, now: int): (seq<Write>, BeginOutcome) {
    var id := input.workflowId;
    var run := FreshRun(input, me, now);
    var (claim, error) := ClaimPlan(d, os, me, id);
    if error.Some? then (claim, error.value)
    else (claim + [PutRun(run), PutIndex(input.idempotencyKey, id)], Created(run))
  }

  function BeginPlan(d: Disk, os: Os, me: Owner, input: BeginInput, now: int): (seq<Write>, BeginOutcome) {
    var id := LookedUp(d, input);
    if id !in d.runs then FreshPlan(d, os, me, input, now)
    else if !SameRequest(d.runs[id], input) then ([], WorkflowConflict)
    else ExistingPlan(d, os, me, input, d.runs[id], now)
  }

  // ----- record, mark, reconcile -----

  predicate StepMatches(step: StepRecord, input: StepInput) {
    if input.key != "" then step.key == input.key else step.stepId == input.stepId
  }

  // The index of the first matching step, or the length if there is none.
  function FindStep(steps: seq<StepRecord>, input: StepInput): (i: nat)
    ensures i <= |steps|
    ensures i < |steps| ==> StepMatches(steps[i], input)
    ensures forall j | 0 <= j < i :: !StepMatches(steps[j], input)
  {
    if steps == [] || StepMatches(steps[0], input) then 0 else 1 + FindStep(steps[1..], input)
  }

  function Recorded(run: Run, input: StepInput, now: int): Run {
    var i := FindStep(run.steps, input);
    var known := i < |run.steps|;
    run.(
      steps := if known then run.steps[i := run.steps[i].(status := input.status, updatedAt := now)]
               else run.steps + [StepRecord(input.stepId, input.status, input.key, now, now)],
      currentStep := Some(input.stepId),
      updatedAt := now,
      events := run.events + [Event(now, if known then StepDuplicateOrUpdate else StepRecorded, Some(input.stepId))])
  }

  function RecordPlan(d: Disk, input: StepInput, now: int): seq<Write> {
    if input.workflowId in d.runs then [PutRun(Recorded(d.runs[input.workflowId], input, now))] else []
  }

  function Marked(run: Run, status: RunStatus, now: int): Run {
    run.(status := status, updatedAt := now, events := run.events + [Event(now, RunMarked(status), None)])
  }

  function MarkPlan(d: Disk, me: Owner, id: string, status: RunStatus, now: int): seq<Write> {
    if id !in d.runs then []
    else
      [PutRun(Marked(d.runs[id], status, now))] +
      (if status != Running && d.runs[id].owner.token == me.token && id in d.locks then [DropLock(id)] else [])
  }

  predicate NeedsReview(os: Os, me: Owner, run: Run) {
    run.status == Running && !OwnerAlive(os, me, run.owner) && !CanResumeRun(run)
  }

  // Reconciliation of one run file; a file that has gone by the time it is read is skipped.
  function ReviewPlan(d: Disk, os: Os, me: Owner, id: string, now: int): seq<Write> {
    if id in d.runs && NeedsReview(os, me, d.runs[id])
    then [PutRun(Quarantined(d.runs[id].(updatedAt := now), now))]
    else []
  }

  // What reconciliation writes, for the run files in the order the directory lists them.
  ghost function ReconcilePlan(d: Disk, os: Os, me: Owner, order: seq<string>, now: int): seq<Write>
    decreases |order|
  {
    if order == [] then []
    else
      var ws := ReviewPlan(d, os, me, order[0], now);
      ws + ReconcilePlan(ApplyAll(d, ws), os, me, order[1..], now)
  }

  lemma {:induction false} ApplyAllConcat(d: Disk, a: seq<Write>, b: seq<Write>)
    ensures ApplyAll(d, a + b) == ApplyAll(ApplyAll(d, a), b)
    decreases |a|
  {
    if a == [] {
      assert a + b == b;
    } else {
      assert (a + b)[1..] == a[1..] + b;
      ApplyAllConcat(Apply(d, a[0]), a[1..], b);
    }
  }
}
