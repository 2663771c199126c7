/** Any number of processes working on one ledger: they start, call its operations, die between two disk
    writes, and have their pids reused. What holds in every reachable world is proved here. */
module LedgerProtocol {
  import opened LedgerModel

  // A process has been told created: true for a workflow.
  datatype Grant = Grant(workflowId: string, owner: Owner)

  // tokens holds every process token ever issued.
  datatype World = World(disk: Disk, os: Os, tokens: set<string>, grants: seq<Grant>)

  datatype Op =
    | Begin(input: BeginInput)
    | Record(step: StepInput)
    | Mark(workflowId: string, status: RunStatus)
    | Reconcile(order: seq<string>)

  datatype Action =
    | Spawn(p: Owner)
    | Exit(p: Owner)
    | ForeignStart(pid: nat)
    | ForeignExit(pid: nat)
    | Call(me: Owner, op: Op, now: int)
    | Crash(me: Owner, op: Op, now: int, k: nat) // me dies after the first k writes of the operation

  ghost function Plan(w: World, me: Owner, op: Op, now: int): seq<Write> {
    match op
    case Begin(input) => BeginPlan(w.disk, w.os, me, input, now).0
    case Record(step) => RecordPlan(w.disk, step, now)
    case Mark(id, status) => MarkPlan(w.disk, me, id, status, now)
    case Reconcile(order) => ReconcilePlan(w.disk, w.os, me, order, now)
  }

  ghost predicate Grants(w: World, me: Owner, op: Op, now: int) {
    op.Begin? && BeginPlan(w.disk, w.os, me, op.input, now).1.Created?
  }

  ghost predicate Enabled(w: World, a: Action) {
    match a
    case Spawn(p) => p.pid > 0 && !w.os.PidInUse(p.pid) && p.token != "" && p.token !in w.tokens
    case Exit(p) => p in w.os.live
    case ForeignStart(pid) => !w.os.PidInUse(pid)
    case ForeignExit(pid) => pid in w.os.foreign
    case Call(me, op, now) => me in w.os.live
    case Crash(me, op, now, k) => me in w.os.live && k <= |Plan(w, me, op, now)|
  }

  ghost function Next(w: World, a: Action): World
    requires Enabled(w, a)
  {
    match a
    case Spawn(p) => w.(os := w.os.(live := w.os.live + {p}), tokens := w.tokens + {p.token})
    case Exit(p) => w.(os := w.os.(live := w.os.live - {p}))
    case ForeignStart(pid) => w.(os := w.os.(foreign := w.os.foreign + {pid}))
    case ForeignExit(pid) => w.(os := w.os.(foreign := w.os.foreign - {pid}))
    case Call(me, op, now) =>
      w.(disk := ApplyAll(w.disk, Plan(w, me, op, now)),
         grants := w.grants + if Grants(w, me, op, now) then [Grant(op.input.workflowId, me)] else [])
    case Crash(me, op, now, k) =>
      w.(disk := ApplyAll(w.disk, Plan(w, me, op, now)[..k]), os := w.os.(live := w.os.live - {me}))
  }

  ghost predicate Legal(w: World, acts: seq<Action>)
    decreases |acts|
  {
    acts == [] || (Enabled(w, acts[0]) && Legal(Next(w, acts[0]), acts[1..]))
  }

  ghost function After(w: World, acts: seq<Action>): World
    requires Legal(w, acts)
    decreases |acts|
  {
    if acts == [] then w else After(Next(w, acts[0]), acts[1..])
  }

  ghost predicate Initial(w: World) {
    w.disk == Disk(map[], map[], map[]) && w.os.live == {} && w.tokens == {} && w.grants == []
  }

  // ----- what one write may do -----

  ghost function DuplicateStarts(events: seq<Event>): nat {
    if events == [] then 0
    else DuplicateStarts(events[..|events| - 1]) + if events[|events| - 1].kind == DuplicateStart then 1 else 0
  }

  ghost predicate KeysDistinct(steps: seq<StepRecord>) {
    forall i, j | 0 <= i < j < |steps| :: steps[i].key != "" ==> steps[i].key != steps[j].key
  }

  ghost predicate RunOk(run: Run) {
    run.attempts == 1 + DuplicateStarts(run.events) && KeysDistinct(run.steps)
  }

  // Identity is fixed, steps keep their place and their ids, events are only appended.
  ghost predicate RunGrows(r: Run, r': Run) {
    && r'.workflowId == r.workflowId && r'.idempotencyKey == r.idempotencyKey && r'.conversationId == r.conversationId
    && r.attempts <= r'.attempts
    && r.events <= r'.events
    && |r.steps| <= |r'.steps|
    && forall i | 0 <= i < |r.steps| :: r'.steps[i].stepId == r.steps[i].stepId && r'.steps[i].key == r.steps[i].key
  }

  ghost predicate DiskGrows(d: Disk, d': Disk) {
    && (forall id | id in d.runs :: id in d'.runs && RunGrows(d.runs[id], d'.runs[id]))
    && (forall k | k in d.index :: k in d'.index && (d.index[k] != "" ==> d'.index[k] == d.index[k]))
  }

  // Every index entry names an existing run that carries its key.
  ghost predicate DiskOk(d: Disk) {
    && (forall id | id in d.runs :: d.runs[id].workflowId == id && RunOk(d.runs[id]))
    && (forall k | k in d.index :: d.index[k] in d.runs && d.runs[d.index[k]].idempotencyKey == k)
  }

  ghost predicate LegalWrite(d: Disk, live: set<Owner>, me: Owner, w: Write) {
    match w
    case PutRun(r) =>
      RunOk(r) &&
      if r.workflowId in d.runs then
        var old_ := d.runs[r.workflowId];
        RunGrows(old_, r) &&
        (r.owner == old_.owner || (r.owner == me && old_.owner !in live && CanResumeRun(old_)))
      else r.owner == me
    case PutIndex(k, id) =>
      && id in d.runs && d.runs[id].idempotencyKey == k
      && (k in d.index && d.index[k] != "" ==> id == d.index[k])
    case CreateLock(id) => id !in d.locks
    case FillLock(id, o) => id in d.locks && d.locks[id] == Torn && o == me
    case DropLock(id) => id in d.locks && (d.locks[id] == Torn || d.locks[id].owner !in live || d.locks[id].owner == me)
  }

  ghost predicate LegalWrites(d: Disk, live: set<Owner>, me: Owner, ws: seq<Write>)
    decreases |ws|
  {
    ws == [] || (LegalWrite(d, live, me, ws[0]) && LegalWrites(Apply(d, ws[0]), live, me, ws[1..]))
  }

  // What an operation of me leaves as it was for every other live process.
  ghost predicate OthersKept(d: Disk, d': Disk, live: set<Owner>, me: Owner) {
    && (forall id | id in d.runs && d.runs[id].owner in live && d.runs[id].owner != me ::
          id in d'.runs && d'.runs[id].owner == d.runs[id].owner)
    && (forall id | id in d.locks && d.locks[id].Held? && d.locks[id].owner in live && d.locks[id].owner != me ::
          id in d'.locks && d'.locks[id] == d.locks[id])
    && (forall id | id in d'.locks && d'.locks[id].Held? && d'.locks[id].owner != me ::
          id in d.locks && d.locks[id] == d'.locks[id])
    && (forall id | id in d'.runs && d'.runs[id].owner != me :: id in d.runs && d.runs[id].owner == d'.runs[id].owner)
  }

  lemma RunGrowsTransitive(a: Run, b: Run, c: Run)
    requires RunGrows(a, b) && RunGrows(b, c)
    ensures RunGrows(a, c)
  {
    forall i | 0 <= i < |a.steps|
      ensures c.steps[i].stepId == a.steps[i].stepId && c.steps[i].key == a.steps[i].key
    {
      assert b.steps[i].stepId == a.steps[i].stepId;
    }
  }

  lemma DiskGrowsTransitive(a: Disk, b: Disk, c: Disk)
    requires DiskGrows(a, b) && DiskGrows(b, c)
    ensures DiskGrows(a, c)
  {
    forall id | id in a.runs
      ensures id in c.runs && RunGrows(a.runs[id], c.runs[id])
    {
      RunGrowsTransitive(a.runs[id], b.runs[id], c.runs[id]);
    }
  }

  lemma RunGrowsReflexive(r: Run)
    ensures RunGrows(r, r)
  {
  }

  lemma PutRunKeeps(d: Disk, live: set<Owner>, me: Owner, r: Run)
    requires DiskOk(d) && LegalWrite(d, live, me, PutRun(r))
    ensures var d' := Apply(d, PutRun(r));
            DiskOk(d') && DiskGrows(d, d') && OthersKept(d, d', live, me)
  {
    forall id | id in d.runs
      ensures RunGrows(d.runs[id], Apply(d, PutRun(r)).runs[id])
    {
      RunGrowsReflexive(d.runs[id]);
    }
  }

  lemma LegalWriteKeeps(d: Disk, live: set<Owner>, me: Owner, w: Write)
    requires DiskOk(d) && LegalWrite(d, live, me, w)
    ensures DiskOk(Apply(d, w)) && DiskGrows(d, Apply(d, w)) && OthersKept(d, Apply(d, w), live, me)
  {
    if w.PutRun? {
      PutRunKeeps(d, live, me, w.run);
    } else {
      assert Apply(d, w).runs == d.runs;
    }
  }

  lemma {:induction false} LegalWritesKeep(d: Disk, live: set<Owner>, me: Owner, ws: seq<Write>)
    requires DiskOk(d) && LegalWrites(d, live, me, ws)
    ensures var d' := ApplyAll(d, ws);
            DiskOk(d') && DiskGrows(d, d') && OthersKept(d, d', live, me)
    decreases |ws|
  {
    if ws != [] {
      var d1 := Apply(d, ws[0]);
      LegalWriteKeeps(d, live, me, ws[0]);
      LegalWritesKeep(d1, live, me, ws[1..]);
      DiskGrowsTransitive(d, d1, ApplyAll(d1, ws[1..]));
    }
  }

  lemma {:induction false} LegalPrefix(d: Disk, live: set<Owner>, me: Owner, ws: seq<Write>, k: nat)
    requires k <= |ws| && LegalWrites(d, live, me, ws)
    ensures LegalWrites(d, live, me, ws[..k])
    decreases k
  {
    if k > 0 {
      assert ws[..k][1..] == ws[1..][..k - 1];
      LegalPrefix(Apply(d, ws[0]), live, me, ws[1..], k - 1);
    }
  }

  lemma {:induction false} LegalConcat(d: Disk, live: set<Owner>, me: Owner, a: seq<Write>, b: seq<Write>)
    requires LegalWrites(d, live, me, a) && LegalWrites(ApplyAll(d, a), live, me, b)
    ensures LegalWrites(d, live, me, a + b)
    decreases |a|
  {
    if a == [] {
      assert a + b == b;
    } else {
      assert (a + b)[1..] == a[1..] + b;
      LegalConcat(Apply(d, a[0]), live, me, a[1..], b);
    }
  }
}
