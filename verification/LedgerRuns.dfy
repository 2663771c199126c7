/** Whole runs of the ledger: exclusive execution for idempotency keys, and runs, from an empty disk, in which the code
    does not do what one would expect. */
module LedgerRuns {
  import opened LedgerModel
  import opened LedgerProtocol
  import opened LedgerSafety

  // ----- one more action -----

  lemma {:induction false} OneMore(w: World, acts: seq<Action>, a: Action)
    requires Legal(w, acts) && Enabled(After(w, acts), a)
    ensures Legal(w, acts + [a]) && After(w, acts + [a]) == Next(After(w, acts), a)
    decreases |acts|
  {
    if acts == [] {
      assert [] + [a] == [a];
      assert Legal(Next(w, a), []);
    } else {
      assert (acts + [a])[0] == acts[0] && (acts + [a])[1..] == acts[1..] + [a];
      OneMore(Next(w, acts[0]), acts[1..], a);
    }
  }

  // ----- exclusive execution for a key -----

  predicate NamesAWorkflow(a: Action) {
    (a.Call? || a.Crash?) && a.op.Begin? ==> a.op.input.workflowId != ""
  }

  // Whoever was granted a workflow holds its key: the index names that workflow, and no other.
  ghost predicate KeysHeld(w: World) {
    && "" !in w.disk.runs
    && forall g | g in w.grants :: g.workflowId in w.disk.runs && HoldsKey(w.disk, g.workflowId)
  }

  ghost predicate HoldsKey(d: Disk, id: string)
    requires id in d.runs
  {
    var key := d.runs[id].idempotencyKey;
    key in d.index && d.index[key] == id
  }

  lemma {:induction false} LegalSuffix(d: Disk, live: set<Owner>, me: Owner, ws: seq<Write>, k: nat)
    requires k <= |ws| && LegalWrites(d, live, me, ws)
    ensures LegalWrites(ApplyAll(d, ws[..k]), live, me, ws[k..])
    ensures ApplyAll(ApplyAll(d, ws[..k]), ws[k..]) == ApplyAll(d, ws)
    decreases k
  {
    if k > 0 {
      assert ws[..k][0] == ws[0] && ws[..k][1..] == ws[1..][..k - 1] && ws[k..] == ws[1..][k - 1..];
      LegalSuffix(Apply(d, ws[0]), live, me, ws[1..], k - 1);
    } else {
      assert ws[k..] == ws;
    }
  }

  // An operation creates no run but the one its begin names.
  lemma NoNewRuns(w: World, me: Owner, op: Op, now: int)
    requires Inv(w) && me in w.os.live && "" !in w.disk.runs && (op.Begin? ==> op.input.workflowId != "")
    ensures "" !in ApplyAll(w.disk, Plan(w, me, op, now)).runs
  {
    match op
    case Begin(input) => BeginLegal(w, me, input, now);
    case Record(step) => RecordLegal(w, me, step, now);
    case Mark(id, status) => MarkLegal(w, me, id, status, now);
    case Reconcile(order) => ReconcileLegal(w.disk, w.os, me, order, now);
  }

  lemma PrefixHasNoNewRuns(w: World, me: Owner, op: Op, now: int, k: nat)
    requires Inv(w) && me in w.os.live && k <= |Plan(w, me, op, now)| &&
             "" !in ApplyAll(w.disk, Plan(w, me, op, now)).runs
    ensures "" !in ApplyAll(w.disk, Plan(w, me, op, now)[..k]).runs
  {
    var ws, live := Plan(w, me, op, now), w.os.live;
    PlanLegal(w, me, op, now);
    LegalPrefix(w.disk, live, me, ws, k);
    LegalWritesKeep(w.disk, live, me, ws[..k]);
    LegalSuffix(w.disk, live, me, ws, k);
    LegalWritesKeep(ApplyAll(w.disk, ws[..k]), live, me, ws[k..]);
  }

  lemma GrantHoldsKey(w: World, me: Owner, input: BeginInput, now: int)
    requires Inv(w) && me in w.os.live && input.workflowId != "" && "" !in w.disk.runs
    requires Grants(w, me, Begin(input), now)
    ensures var d' := Next(w, Call(me, Begin(input), now)).disk;
            input.workflowId in d'.runs && HoldsKey(d', input.workflowId)
  {
    BeginLeavesEntry(w, me, input, now);
    CallKeepsInv(w, me, Begin(input), now);
    NoNewRuns(w, me, Begin(input), now);
    BeginLegal(w, me, input, now);
  }

  lemma KeyStays(d: Disk, d': Disk, id: string)
    requires DiskGrows(d, d') && id in d.runs && id != "" && HoldsKey(d, id)
    ensures id in d'.runs && HoldsKey(d', id)
  {
  }

  lemma RunsStayNamed(w: World, a: Action)
    requires Inv(w) && Enabled(w, a) && NamesAWorkflow(a) && "" !in w.disk.runs
    ensures "" !in Next(w, a).disk.runs
  {
    if a.Call? {
      NoNewRuns(w, a.me, a.op, a.now);
    } else if a.Crash? {
      NoNewRuns(w, a.me, a.op, a.now);
      PrefixHasNoNewRuns(w, a.me, a.op, a.now, a.k);
    }
  }

  lemma KeysHeldStep(w: World, a: Action)
    requires Inv(w) && Enabled(w, a) && NamesAWorkflow(a) && KeysHeld(w)
    ensures KeysHeld(Next(w, a))
  {
    hide BeginPlan, Inv, HoldsKey;
    var w' := Next(w, a);
    StepKeepsInv(w, a);
    RunsStayNamed(w, a);
    forall g | g in w'.grants
      ensures g.workflowId in w'.disk.runs && HoldsKey(w'.disk, g.workflowId)
    {
      if g in w.grants {
        KeyStays(w.disk, w'.disk, g.workflowId);
      } else {
        GrantHoldsKey(w, a.me, a.op.input, a.now);
      }
    }
  }

  lemma {:induction false} KeysHeldAfter(w: World, acts: seq<Action>)
    requires Inv(w) && KeysHeld(w) && Legal(w, acts) && forall a | a in acts :: NamesAWorkflow(a)
    ensures KeysHeld(After(w, acts))
    decreases |acts|
  {
    if acts != [] {
      assert acts[0] in acts && forall a | a in acts[1..] :: a in acts;
      KeysHeldStep(w, acts[0]);
      StepKeepsInv(w, acts[0]);
      KeysHeldAfter(Next(w, acts[0]), acts[1..]);
    }
  }

  ghost function KeyOf(w: World, g: Grant): string
    requires g.workflowId in w.disk.runs
  {
    w.disk.runs[g.workflowId].idempotencyKey
  }

  // In every run in which no begin names the empty workflow, at most one live process has been told created: true for
  // an idempotency key, whatever workflow it named.
  lemma ExclusivePerKey(w: World, acts: seq<Action>)
    requires Initial(w) && Legal(w, acts) && forall a | a in acts :: NamesAWorkflow(a)
    ensures var w', gs := After(w, acts), After(w, acts).grants;
            && (forall g | g in gs :: g.workflowId in w'.disk.runs)
            && forall g, h | g in gs && h in gs && g != h && KeyOf(w', g) == KeyOf(w', h) ::
                 !(g.owner in w'.os.live && h.owner in w'.os.live)
  {
    KeysHeldAfter(w, acts);
    InvAfter(w, acts);
  }

  // ----- begins of new workflows -----

  // A begin whose workflow and key are new claims, stores and indexes, one file after the other.
  lemma FreshBegin(d: Disk, os: Os, me: Owner, input: BeginInput, now: int)
    requires LookedUp(d, input) == input.workflowId && input.workflowId !in d.runs && input.workflowId !in d.locks
    ensures var id, run := input.workflowId, FreshRun(input, me, now);
            var (ws, outcome) := BeginPlan(d, os, me, input, now);
            && ws == [CreateLock(id), FillLock(id, me), PutRun(run), PutIndex(input.idempotencyKey, id)]
            && outcome == Created(run)
            && ApplyAll(d, ws[..3]) == Disk(d.runs[id := run], d.index, d.locks[id := Held(me)])
            && ApplyAll(d, ws) == Disk(d.runs[id := run], d.index[input.idempotencyKey := id], d.locks[id := Held(me)])
  {
    var id, run := input.workflowId, FreshRun(input, me, now);
    var ws := BeginPlan(d, os, me, input, now).0;
    assert ws == [CreateLock(id), FillLock(id, me), PutRun(run), PutIndex(input.idempotencyKey, id)];
    ApplyFour(d, ws);
    ApplyThree(d, ws[..3]);
  }

  lemma ApplyThree(d: Disk, ws: seq<Write>)
    requires |ws| == 3
    ensures ApplyAll(d, ws) == Apply(Apply(Apply(d, ws[0]), ws[1]), ws[2])
  {
    var rest := ws[1..];
    assert rest[0] == ws[1] && rest[1..] == [ws[2]];
    assert ApplyAll(Apply(Apply(d, ws[0]), ws[1]), [ws[2]]) == Apply(Apply(Apply(d, ws[0]), ws[1]), ws[2]) by {
      assert [ws[2]][1..] == [];
    }
  }

  lemma ApplyFour(d: Disk, ws: seq<Write>)
    requires |ws| == 4
    ensures ApplyAll(d, ws) == Apply(Apply(Apply(Apply(d, ws[0]), ws[1]), ws[2]), ws[3])
  {
    assert ws[1..] == [ws[1], ws[2], ws[3]];
    ApplyThree(Apply(d, ws[0]), ws[1..]);
  }

  ghost predicate Process(p: Owner) {
    p.pid > 0 && p.token != ""
  }

  const EMPTY_DISK := Disk(map[], map[], map[])

  lemma FirstSpawn(w: World, p: Owner)
    requires Initial(w) && w.os.foreign == {} && Process(p)
    ensures Legal(w, [Spawn(p)]) && After(w, [Spawn(p)]) == World(EMPTY_DISK, Os({p}, {}), {p.token}, [])
  {
    OneMore(w, [], Spawn(p));
    assert [] + [Spawn(p)] == [Spawn(p)];
  }

  // ----- an orphan -----

  ghost function OrphanRun(p: Owner, q: Owner, a: string, b: string, key: string, conversation: string): seq<Action> {
    [Spawn(p)] + [Crash(p, Begin(BeginInput(a, key, conversation)), 0, 3)] + [Spawn(q)] +
    [Call(q, Begin(BeginInput(b, key, conversation)), 0)]
  }

  // A process dies between storing its run and indexing it, and another workflow takes the key: the first run is
  // orphaned. It is running, its owner is dead and it could be resumed, but starting it again is a conflict, and there
  // is nothing to review.
  lemma CrashOrphansARun(w: World, p: Owner, q: Owner, a: string, b: string, key: string, conversation: string)
    requires Initial(w) && w.os.foreign == {} && Process(p) && Process(q) && p.token != q.token
    requires a != b && b != ""
    ensures var acts := OrphanRun(p, q, a, b, key, conversation);
            && Legal(w, acts)
            && var w' := After(w, acts);
               && Orphaned(w'.disk, a) && w'.disk.runs[a].status == Running && CanResumeRun(w'.disk.runs[a])
               && !OwnerAlive(w'.os, q, w'.disk.runs[a].owner) && !NeedsReview(w'.os, q, w'.disk.runs[a])
               && BeginPlan(w'.disk, w'.os, q, OwnRequest(w'.disk.runs[a]), 1).1 == WorkflowConflict
  {
    var first, second := BeginInput(a, key, conversation), BeginInput(b, key, conversation);
    FirstSpawn(w, p);
    FreshBegin(EMPTY_DISK, Os({p}, {}), p, first, 0);
    OneMore(w, [Spawn(p)], Crash(p, Begin(first), 0, 3));
    var crashed := [Spawn(p)] + [Crash(p, Begin(first), 0, 3)];
    OneMore(w, crashed, Spawn(q));
    var w3 := After(w, crashed + [Spawn(q)]);
    assert w3.os.live == {q};
    FreshBegin(w3.disk, w3.os, q, second, 0);
    OneMore(w, crashed + [Spawn(q)], Call(q, Begin(second), 0));
  }

  // ----- a replayed effect -----

  ghost function ReplayRun(p: Owner, q: Owner, input: BeginInput, effect: string, key: string): seq<Action> {
    [Spawn(p)] + [Call(p, Begin(input), 0)] +
    [Call(p, Record(StepInput(input.workflowId, "memory.recall", StepStarted, key)), 0)] +
    [Call(p, Record(StepInput(input.workflowId, effect, StepStarted, key)), 0)] + [Exit(p)] + [Spawn(q)] +
    [Call(q, Begin(input), 0)]
  }

  lemma RecordOne(w: World, me: Owner, step: StepInput, now: int)
    requires step.workflowId in w.disk.runs && me in w.os.live
    requires w.disk.runs[step.workflowId].workflowId == step.workflowId
    ensures var run' := Recorded(w.disk.runs[step.workflowId], step, now);
            Next(w, Call(me, Record(step), now)) == w.(disk := w.disk.(runs := w.disk.runs[step.workflowId := run']))
  {
    var ws := RecordPlan(w.disk, step, now);
    assert ws[1..] == [];
    assert ApplyAll(Apply(w.disk, ws[0]), []) == Apply(w.disk, ws[0]);
  }

  // The two records leave one step, with the id of the first.
  lemma EffectIsHidden(run: Run, recall: StepInput, effect: StepInput, now: int)
    requires run.steps == [] && recall.key == effect.key != "" && recall.stepId == "memory.recall"
    ensures var run' := Recorded(Recorded(run, recall, now), effect, now);
            && |run'.steps| == 1 && run'.steps[0].stepId == recall.stepId && CanResumeRun(run')
            && run'.status == run.status && run'.owner == run.owner && OwnRequest(run') == OwnRequest(run)
  {
    var once := Recorded(run, recall, now);
    assert FindStep(run.steps, recall) == 0;
    assert once.steps == [StepRecord(recall.stepId, recall.status, recall.key, now, now)];
    assert StepMatches(once.steps[0], effect);
    assert FindStep(once.steps, effect) == 0;
    assert recall.stepId == SAFE_STEPS[1];
  }

  // A tool step recorded under the key of a memory recall leaves its run resumable: when its owner dies, the next
  // process is told created: true, and the effect is replayed.
  lemma ReusedKeyHidesEffect(w: World, p: Owner, q: Owner, input: BeginInput, effect: string, key: string)
    requires Initial(w) && w.os.foreign == {} && Process(p) && Process(q) && p.token != q.token
    requires key != "" && effect !in SAFE_STEPS
    ensures var acts := ReplayRun(p, q, input, effect, key);
            Legal(w, acts) && After(w, acts).grants == [Grant(input.workflowId, p), Grant(input.workflowId, q)]
  {
    var id := input.workflowId;
    var recall, tool := StepInput(id, "memory.recall", StepStarted, key), StepInput(id, effect, StepStarted, key);
    FirstSpawn(w, p);
    FreshBegin(EMPTY_DISK, Os({p}, {}), p, input, 0);
    OneMore(w, [Spawn(p)], Call(p, Begin(input), 0));
    var begun := [Spawn(p)] + [Call(p, Begin(input), 0)];
    RecordOne(After(w, begun), p, recall, 0);
    OneMore(w, begun, Call(p, Record(recall), 0));
    var recalled := begun + [Call(p, Record(recall), 0)];
    RecordOne(After(w, recalled), p, tool, 0);
    OneMore(w, recalled, Call(p, Record(tool), 0));
    EffectIsHidden(FreshRun(input, p, 0), recall, tool, 0);
    Succession(w, recalled + [Call(p, Record(tool), 0)], p, q, input);
  }

  // The owner of a resumable run dies, and another process starts the run again.
  lemma Succession(w: World, acts: seq<Action>, p: Owner, q: Owner, input: BeginInput)
    requires Initial(w) && Legal(w, acts) && Process(q) && p.token != q.token
    requires var w' := After(w, acts);
             && w'.os == Os({p}, {}) && w'.tokens == {p.token} && w'.grants == [Grant(input.workflowId, p)]
             && input.workflowId in w'.disk.runs && Named(w'.disk, input.workflowId)
             && var run := w'.disk.runs[input.workflowId];
                run.status == Running && run.owner == p && CanResumeRun(run) && OwnRequest(run) == input
    ensures var more := acts + [Exit(p)] + [Spawn(q)] + [Call(q, Begin(input), 0)];
            Legal(w, more) && After(w, more).grants == [Grant(input.workflowId, p), Grant(input.workflowId, q)]
  {
    OneMore(w, acts, Exit(p));
    OneMore(w, acts + [Exit(p)], Spawn(q));
    var waiting := acts + [Exit(p)] + [Spawn(q)];
    var w' := After(w, waiting);
    assert w'.os.live == {q} && w'.disk == After(w, acts).disk;
    InvAfter(w, waiting);
    OwnerAliveExact(w'.os, q, p);
    AnswersExactly(w', q, input.workflowId, 0);
    OneMore(w, waiting, Call(q, Begin(input), 0));
  }

  // ----- the empty workflow id -----

  ghost function EmptyIdRun(p: Owner, q: Owner, b: string, key: string, conversation: string): seq<Action> {
    [Spawn(p)] + [Call(p, Begin(BeginInput("", key, conversation)), 0)] + [Spawn(q)] +
    [Call(q, Begin(BeginInput(b, key, conversation)), 0)]
  }

  // The entry of the empty workflow id does not hold its key: a second begin moves the entry, and two live processes
  // have been told created: true for one key.
  lemma EmptyIdLosesItsEntry(w: World, p: Owner, q: Owner, b: string, key: string, conversation: string)
    requires Initial(w) && w.os.foreign == {} && Process(p) && Process(q) && p.token != q.token && p.pid != q.pid
    requires b != ""
    ensures var acts := EmptyIdRun(p, q, b, key, conversation);
            && Legal(w, acts) && Legal(w, acts[..2])
            && var before, after := After(w, acts[..2]), After(w, acts);
               && key in before.disk.index && before.disk.index[key] == ""
               && key in after.disk.index && after.disk.index[key] == b
               && after.grants == [Grant("", p), Grant(b, q)] && p in after.os.live && q in after.os.live
               && "" in after.disk.runs && b in after.disk.runs
               && KeyOf(after, Grant("", p)) == KeyOf(after, Grant(b, q)) == key
  {
    var first, second := BeginInput("", key, conversation), BeginInput(b, key, conversation);
    FirstSpawn(w, p);
    FreshBegin(EMPTY_DISK, Os({p}, {}), p, first, 0);
    OneMore(w, [Spawn(p)], Call(p, Begin(first), 0));
    var begun := [Spawn(p)] + [Call(p, Begin(first), 0)];
    OneMore(w, begun, Spawn(q));
    var w3 := After(w, begun + [Spawn(q)]);
    FreshBegin(w3.disk, w3.os, q, second, 0);
    OneMore(w, begun + [Spawn(q)], Call(q, Begin(second), 0));
    assert EmptyIdRun(p, q, b, key, conversation)[..2] == begun;
  }
}
