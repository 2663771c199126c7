/** Exclusive execution, no replay after an effect, and agreement of ledger and index, over every run. */
module LedgerSafety {
  import opened Wrappers
  import opened LedgerModel
  import opened LedgerProtocol

  // ----- owners -----

  // A live owner is never taken for dead; a dead one is taken for alive exactly while its pid
  // belongs to a process other than the caller.
  lemma OwnerAliveExact(os: Os, me: Owner, o: Owner)
    requires os.Valid() && me in os.live
    ensures OwnerAlive(os, me, o) <==>
            o in os.live || (o.pid != 0 && o.token != "" && o.pid != me.pid && os.PidInUse(o.pid))
  {
    if o in os.live && o.pid == me.pid {
      assert o == me;
    }
  }

  // ----- single runs -----

  lemma Appended(events: seq<Event>, e: Event)
    ensures DuplicateStarts(events + [e]) == DuplicateStarts(events) + if e.kind == DuplicateStart then 1 else 0
  {
    assert (events + [e])[..|events|] == events;
  }

  ghost predicate GoodUpdate(r: Run, r': Run) {
    RunOk(r') && RunGrows(r, r')
  }

  lemma BumpedIsGood(run: Run, now: int)
    requires RunOk(run)
    ensures GoodUpdate(run, Bumped(run, now))
  {
    Appended(run.events, Event(now, DuplicateStart, None));
  }

  lemma QuarantinedIsGood(run: Run, now: int)
    requires RunOk(run)
    ensures GoodUpdate(run, Quarantined(run, now))
  {
    Appended(run.events, Event(now, RecoveryRequiresReview, None));
  }

  lemma ResumedIsGood(run: Run, me: Owner, now: int)
    requires RunOk(run)
    ensures GoodUpdate(run, Resumed(run, me, now))
  {
    Appended(run.events, Event(now, SafePreExecutionResume, None));
  }

  lemma MarkedIsGood(run: Run, status: RunStatus, now: int)
    requires RunOk(run)
    ensures GoodUpdate(run, Marked(run, status, now))
  {
    Appended(run.events, Event(now, RunMarked(status), None));
  }

  // A keyed step is only added when no step carries its key, and an update never touches ids or keys.
  lemma RecordedKeepsKeys(run: Run, step: StepInput, now: int)
    requires KeysDistinct(run.steps)
    ensures KeysDistinct(Recorded(run, step, now).steps)
  {
    var steps' := Recorded(run, step, now).steps;
    forall i, j | 0 <= i < j < |steps'| && steps'[i].key != ""
      ensures steps'[i].key != steps'[j].key
    {
      if j == |run.steps| {
        assert !StepMatches(run.steps[i], step);
      }
    }
  }

  lemma RecordedIsGood(run: Run, step: StepInput, now: int)
    requires RunOk(run)
    ensures GoodUpdate(run, Recorded(run, step, now))
  {
    var run' := Recorded(run, step, now);
    RecordedKeepsKeys(run, step, now);
    Appended(run.events, run'.events[|run.events|]);
  }

  // ----- the invariant -----

  ghost predicate TokensKnown(w: World) {
    && (forall p <- w.os.live :: p.token in w.tokens)
    && (forall p <- w.os.live, q <- w.os.live :: p.token == q.token ==> p == q)
    && (forall id | id in w.disk.runs :: w.disk.runs[id].owner.token in w.tokens)
    && (forall id | id in w.disk.locks && w.disk.locks[id].Held? :: w.disk.locks[id].owner.token in w.tokens)
    && (forall g | g in w.grants :: g.owner.token in w.tokens)
  }

  // A lock held by a live process is backed by a run it owns.
  ghost predicate LocksBacked(w: World) {
    forall id | id in w.disk.locks && w.disk.locks[id].Held? && w.disk.locks[id].owner in w.os.live ::
      id in w.disk.runs && w.disk.runs[id].owner == w.disk.locks[id].owner
  }

  // A live process that was granted a workflow owns its run, and nobody is granted a workflow twice.
  ghost predicate GrantsExclusive(w: World) {
    && (forall g | g in w.grants && g.owner in w.os.live ::
          g.workflowId in w.disk.runs && w.disk.runs[g.workflowId].owner == g.owner)
    && (forall i, j | 0 <= i < j < |w.grants| :: w.grants[i] != w.grants[j])
  }

  ghost predicate Inv(w: World) {
    w.os.Valid() && DiskOk(w.disk) && TokensKnown(w) && LocksBacked(w) && GrantsExclusive(w)
  }

  // ----- every plan is legal -----

  ghost function Repaired(d: Disk, input: BeginInput): Disk {
    if input.idempotencyKey in d.index then d
    else d.(index := d.index[input.idempotencyKey := input.workflowId])
  }

  lemma RepairLegal(d: Disk, live: set<Owner>, me: Owner, input: BeginInput, ws: seq<Write>)
    requires input.workflowId in d.runs && d.runs[input.workflowId].idempotencyKey == input.idempotencyKey
    requires LegalWrites(Repaired(d, input), live, me, ws)
    ensures LegalWrites(d, live, me, Repair(d, input) + ws)
    ensures ApplyAll(d, Repair(d, input) + ws) == ApplyAll(Repaired(d, input), ws)
  {
    var repair := Repair(d, input);
    if repair == [] {
      assert repair + ws == ws;
    } else {
      assert (repair + ws)[1..] == ws;
    }
  }

  lemma AppendLegal(d: Disk, live: set<Owner>, me: Owner, ws: seq<Write>, last: Write)
    requires LegalWrites(d, live, me, ws) && LegalWrite(ApplyAll(d, ws), live, me, last)
    ensures LegalWrites(d, live, me, ws + [last])
    ensures ApplyAll(d, ws + [last]) == Apply(ApplyAll(d, ws), last)
  {
    var d' := ApplyAll(d, ws);
    assert [last][1..] == [];
    assert ApplyAll(Apply(d', last), []) == ApplyAll(d', [last]);
    LegalConcat(d, live, me, ws, [last]);
    ApplyAllConcat(d, ws, [last]);
  }

  // Dropping a lock nobody alive holds, and claiming the workflow.
  lemma ReclaimLegal(d: Disk, live: set<Owner>, me: Owner, id: string)
    requires id in d.locks ==> d.locks[id] == Torn || d.locks[id].owner !in live
    ensures var ws := Release(d, id) + Claim(id, me);
            LegalWrites(d, live, me, ws) && ApplyAll(d, ws) == d.(locks := d.locks[id := Held(me)])
  {
    var release := Release(d, id);
    var d1 := ApplyAll(d, release);
    assert d1 == d.(locks := d.locks - {id}) by {
      if id in d.locks {
        assert release[1..] == [];
        assert ApplyAll(Apply(d, release[0]), release[1..]) == d1;
      } else {
        assert d.locks - {id} == d.locks;
      }
    }
    AppendLegal(d, live, me, release, CreateLock(id));
    AppendLegal(d, live, me, release + [CreateLock(id)], FillLock(id, me));
    assert release + [CreateLock(id)] + [FillLock(id, me)] == release + Claim(id, me);
    assert (d.locks - {id})[id := Torn][id := Held(me)] == d.locks[id := Held(me)];
  }

  // A begin either leaves locks and owners as they are, or ends with me owning run and lock.
  ghost predicate BeginEffect(d: Disk, d': Disk, live: set<Owner>, me: Owner, id: string, created: bool) {
    && (created ==> id in d'.runs && d'.runs[id].owner == me)
    && (created ==> d'.locks == d.locks[id := Held(me)])
    && (created ==> id in d.runs ==> d.runs[id].owner !in live && CanResumeRun(d.runs[id]))
    && (!created ==> d'.locks == d.locks && d'.runs.Keys == d.runs.Keys)
    && (!created ==> forall x | x in d.runs :: d'.runs[x].owner == d.runs[x].owner)
    && (forall x | x in d'.runs && x != id :: x in d.runs && d'.runs[x].owner == d.runs[x].owner)
  }

  lemma ResumeLegal(d: Disk, live: set<Owner>, me: Owner, id: string, run: Run)
    requires id in d.runs && id == run.workflowId && run.owner == me
    requires d.runs[id].owner !in live && CanResumeRun(d.runs[id]) && GoodUpdate(d.runs[id], run)
    requires id in d.locks ==> d.locks[id] == Torn || d.locks[id].owner !in live
    ensures var ws := Release(d, id) + Claim(id, me) + [PutRun(run)];
            LegalWrites(d, live, me, ws) && BeginEffect(d, ApplyAll(d, ws), live, me, id, true) &&
            ApplyAll(d, ws).index == d.index
  {
    ReclaimLegal(d, live, me, id);
    AppendLegal(d, live, me, Release(d, id) + Claim(id, me), PutRun(run));
  }

  lemma SingleLegal(d: Disk, live: set<Owner>, me: Owner, run: Run)
    requires run.workflowId in d.runs
    requires run.owner == d.runs[run.workflowId].owner && GoodUpdate(d.runs[run.workflowId], run)
    ensures LegalWrites(d, live, me, [PutRun(run)]) && ApplyAll(d, [PutRun(run)]) == Apply(d, PutRun(run))
    ensures BeginEffect(d, ApplyAll(d, [PutRun(run)]), live, me, run.workflowId, false)
  {
    AppendLegal(d, live, me, [], PutRun(run));
    assert [] + [PutRun(run)] == [PutRun(run)];
  }

  // What comes after the repair of the index, by answer.
  lemma RestLegal(w: World, me: Owner, input: BeginInput, now: int) returns (rest: seq<Write>)
    requires Inv(w) && me in w.os.live
    requires input.workflowId in w.disk.runs && SameRequest(w.disk.runs[input.workflowId], input)
    ensures var (ws, outcome) := ExistingPlan(w.disk, w.os, me, input, w.disk.runs[input.workflowId], now);
            var d1 := Repaired(w.disk, input);
            && ws == Repair(w.disk, input) + rest && LegalWrites(d1, w.os.live, me, rest)
            && BeginEffect(d1, ApplyAll(d1, rest), w.os.live, me, input.workflowId, outcome.Created?)
            && ApplyAll(d1, rest).index == d1.index
  {
    var d, live, id := w.disk, w.os.live, input.workflowId;
    var existing := d.runs[id];
    var (ws, outcome) := ExistingPlan(d, w.os, me, input, existing, now);
    var d1 := Repaired(d, input);
    var bumped := Bumped(existing, now);
    BumpedIsGood(existing, now);
    OwnerAliveExact(w.os, me, existing.owner);
    if outcome.Created? {
      ResumedIsGood(bumped, me, now);
      RunGrowsTransitive(existing, bumped, outcome.run);
      ResumeLegal(d1, live, me, id, outcome.run);
      rest := Release(d, id) + Claim(id, me) + [PutRun(outcome.run)];
      Reassociated(Repair(d, input), Release(d, id), Claim(id, me), [PutRun(outcome.run)]);
    } else if outcome.InterruptedExecution? {
      QuarantinedIsGood(bumped, now);
      RunGrowsTransitive(existing, bumped, Quarantined(bumped, now));
      SingleLegal(d1, live, me, Quarantined(bumped, now));
      rest := [PutRun(Quarantined(bumped, now))];
    } else {
      SingleLegal(d1, live, me, bumped);
      rest := [PutRun(bumped)];
    }
  }

  lemma Reassociated<T>(a: seq<T>, b: seq<T>, c: seq<T>, d: seq<T>)
    ensures a + b + c + d == a + (b + c + d)
  {
  }

  lemma ExistingLegal(w: World, me: Owner, input: BeginInput, now: int)
    requires Inv(w) && me in w.os.live
    requires input.workflowId in w.disk.runs && SameRequest(w.disk.runs[input.workflowId], input)
    ensures var (ws, outcome) := ExistingPlan(w.disk, w.os, me, input, w.disk.runs[input.workflowId], now);
            LegalWrites(w.disk, w.os.live, me, ws) &&
            BeginEffect(w.disk, ApplyAll(w.disk, ws), w.os.live, me, input.workflowId, outcome.Created?) &&
            ApplyAll(w.disk, ws).index == Repaired(w.disk, input).index
  {
    hide ExistingPlan, GrantsExclusive, TokensKnown, LocksBacked;
    var rest := RestLegal(w, me, input, now);
    RepairLegal(w.disk, w.os.live, me, input, rest);
  }

  lemma PublishLegal(d: Disk, live: set<Owner>, me: Owner, id: string, key: string, run: Run)
    requires id !in d.runs && run.workflowId == id && run.idempotencyKey == key && run.owner == me && RunOk(run)
    requires key in d.index ==> d.index[key] == ""
    requires id in d.locks ==> d.locks[id] == Torn || d.locks[id].owner !in live
    ensures var ws := Release(d, id) + Claim(id, me) + [PutRun(run), PutIndex(key, id)];
            LegalWrites(d, live, me, ws) && BeginEffect(d, ApplyAll(d, ws), live, me, id, true) &&
            ApplyAll(d, ws).index == d.index[key := id]
  {
    var claim := Release(d, id) + Claim(id, me);
    ReclaimLegal(d, live, me, id);
    AppendLegal(d, live, me, claim, PutRun(run));
    AppendLegal(d, live, me, claim + [PutRun(run)], PutIndex(key, id));
    assert claim + [PutRun(run)] + [PutIndex(key, id)] == claim + [PutRun(run), PutIndex(key, id)];
  }

  lemma FreshLegal(w: World, me: Owner, input: BeginInput, now: int)
    requires Inv(w) && me in w.os.live
    requires input.workflowId !in w.disk.runs
    requires input.idempotencyKey in w.disk.index ==> w.disk.index[input.idempotencyKey] == ""
    ensures var (ws, outcome) := FreshPlan(w.disk, w.os, me, input, now);
            LegalWrites(w.disk, w.os.live, me, ws) &&
            BeginEffect(w.disk, ApplyAll(w.disk, ws), w.os.live, me, input.workflowId, outcome.Created?) &&
            ApplyAll(w.disk, ws).index ==
              if outcome.Created? then w.disk.index[input.idempotencyKey := input.workflowId] else w.disk.index
  {
    var id := input.workflowId;
    if ClaimPlan(w.disk, w.os, me, id).1 == None {
      if id in w.disk.locks {
        OwnerAliveExact(w.os, me, w.disk.locks[id].owner);
      }
      var run := FreshRun(input, me, now);
      Appended([], run.events[0]);
      assert [] + [run.events[0]] == run.events;
      PublishLegal(w.disk, w.os.live, me, id, input.idempotencyKey, run);
    }
  }

  lemma LookupStaysWithInput(w: World, input: BeginInput)
    requires Inv(w)
    ensures var id := LookedUp(w.disk, input);
            (id in w.disk.runs && SameRequest(w.disk.runs[id], input) ==> id == input.workflowId) &&
            (id !in w.disk.runs ==> id == input.workflowId) &&
            (id !in w.disk.runs && input.idempotencyKey in w.disk.index ==> w.disk.index[input.idempotencyKey] == "")
  {
  }

  // The index a begin leaves behind.
  ghost function BeginIndex(d: Disk, os: Os, me: Owner, input: BeginInput): map<string, string> {
    var id := LookedUp(d, input);
    if id in d.runs then if SameRequest(d.runs[id], input) then Repaired(d, input).index else d.index
    else if ClaimPlan(d, os, me, input.workflowId).1 == None then d.index[input.idempotencyKey := input.workflowId]
    else d.index
  }

  lemma BeginLegal(w: World, me: Owner, input: BeginInput, now: int)
    requires Inv(w) && me in w.os.live
    ensures var (ws, outcome) := BeginPlan(w.disk, w.os, me, input, now);
            LegalWrites(w.disk, w.os.live, me, ws) &&
            BeginEffect(w.disk, ApplyAll(w.disk, ws), w.os.live, me, input.workflowId, outcome.Created?) &&
            ApplyAll(w.disk, ws).index == BeginIndex(w.disk, w.os, me, input)
  {
    LookupStaysWithInput(w, input);
    var id := LookedUp(w.disk, input);
    if id !in w.disk.runs {
      FreshLegal(w, me, input, now);
    } else if SameRequest(w.disk.runs[id], input) {
      ExistingLegal(w, me, input, now);
    }
  }

  // Locks and owners are as they were, except that a process may drop a lock on a run it owns.
  ghost predicate OwnersKept(d: Disk, d': Disk) {
    && (forall id | id in d'.locks :: id in d.locks && d'.locks[id] == d.locks[id])
    && d'.runs.Keys == d.runs.Keys
    && (forall id | id in d.runs :: d'.runs[id].owner == d.runs[id].owner)
  }

  lemma RecordLegal(w: World, me: Owner, step: StepInput, now: int)
    requires Inv(w)
    ensures var ws := RecordPlan(w.disk, step, now);
            LegalWrites(w.disk, w.os.live, me, ws) && OwnersKept(w.disk, ApplyAll(w.disk, ws))
  {
    if step.workflowId in w.disk.runs {
      var run := w.disk.runs[step.workflowId];
      RecordedIsGood(run, step, now);
      SingleLegal(w.disk, w.os.live, me, Recorded(run, step, now));
    }
  }

  lemma MarkLegal(w: World, me: Owner, id: string, status: RunStatus, now: int)
    requires Inv(w) && me in w.os.live
    ensures var ws := MarkPlan(w.disk, me, id, status, now);
            LegalWrites(w.disk, w.os.live, me, ws) && OwnersKept(w.disk, ApplyAll(w.disk, ws))
  {
    if id in w.disk.runs {
      var run := Marked(w.disk.runs[id], status, now);
      MarkedIsGood(w.disk.runs[id], status, now);
      SingleLegal(w.disk, w.os.live, me, run);
      if |MarkPlan(w.disk, me, id, status, now)| == 2 {
        MarkDropsOwnLock(w, me, id);
        AppendLegal(w.disk, w.os.live, me, [PutRun(run)], DropLock(id));
      }
    }
  }

  lemma {:induction false} ReconcileLegal(d: Disk, os: Os, me: Owner, order: seq<string>, now: int)
    requires DiskOk(d)
    ensures var ws := ReconcilePlan(d, os, me, order, now);
            LegalWrites(d, os.live, me, ws) && OwnersKept(d, ApplyAll(d, ws))
    decreases |order|
  {
    if order != [] {
      var ws := ReviewPlan(d, os, me, order[0], now);
      if ws != [] {
        var run := d.runs[order[0]];
        QuarantinedIsGood(run.(updatedAt := now), now);
        SingleLegal(d, os.live, me, Quarantined(run.(updatedAt := now), now));
      }
      var d1 := ApplyAll(d, ws);
      LegalWritesKeep(d, os.live, me, ws);
      ReconcileLegal(d1, os, me, order[1..], now);
      var rest := ReconcilePlan(d1, os, me, order[1..], now);
      LegalConcat(d, os.live, me, ws, rest);
      ApplyAllConcat(d, ws, rest);
    }
  }

  // The token test of a status mark is enough: a lock a live process holds on a run with my token is mine.
  lemma MarkDropsOwnLock(w: World, me: Owner, id: string)
    requires Inv(w) && id in w.disk.runs && id in w.disk.locks
    requires w.disk.runs[id].owner.token == me.token && me in w.os.live
    ensures w.disk.locks[id] == Torn || w.disk.locks[id].owner !in w.os.live || w.disk.locks[id].owner == me
  {
  }

  // ----- the invariant is kept by every action -----

  lemma PlanLegal(w: World, me: Owner, op: Op, now: int)
    requires Inv(w) && me in w.os.live
    ensures LegalWrites(w.disk, w.os.live, me, Plan(w, me, op, now))
    ensures !Grants(w, me, op, now) ==> MineKept(w.disk, ApplyAll(w.disk, Plan(w, me, op, now)), me)
    ensures Grants(w, me, op, now) ==>
              BeginEffect(w.disk, ApplyAll(w.disk, Plan(w, me, op, now)), w.os.live, me, op.input.workflowId, true)
  {
    match op
    case Begin(input) => BeginLegal(w, me, input, now);
    case Record(step) => RecordLegal(w, me, step, now);
    case Mark(id, status) => MarkLegal(w, me, id, status, now);
    case Reconcile(order) => ReconcileLegal(w.disk, w.os, me, order, now);
  }

  ghost predicate MineKept(d: Disk, d': Disk, me: Owner) {
    && (forall id | id in d'.locks && d'.locks[id] == Held(me) :: id in d.locks && d.locks[id] == Held(me))
    && (forall id | id in d.runs && d.runs[id].owner == me :: id in d'.runs && d'.runs[id].owner == me)
  }

  // Everything but the grants survives any write-by-write progress of an operation.
  lemma DiskStep(w: World, d': Disk, live': set<Owner>, me: Owner)
    requires Inv(w) && me in w.os.live && live' <= w.os.live
    requires DiskOk(d') && DiskGrows(w.disk, d') && OthersKept(w.disk, d', w.os.live, me)
    requires me in live' ==>
               forall id | id in d'.locks && d'.locks[id] == Held(me) :: id in d'.runs && d'.runs[id].owner == me
    ensures var w' := w.(disk := d', os := w.os.(live := live'));
            w'.os.Valid() && TokensKnown(w') && LocksBacked(w')
  {
  }

  // A new grant on id: whoever was granted id before is dead, and every other live owner keeps its run.
  lemma GrantStep(w: World, d': Disk, me: Owner, id: string)
    requires Inv(w) && me in w.os.live && DiskGrows(w.disk, d') && OthersKept(w.disk, d', w.os.live, me)
    requires BeginEffect(w.disk, d', w.os.live, me, id, true)
    ensures forall g | g in w.grants && g.workflowId == id :: g.owner !in w.os.live
    ensures GrantsExclusive(w.(disk := d', grants := w.grants + [Grant(id, me)]))
  {
    var gs := w.grants + [Grant(id, me)];
    forall g | g in w.grants && g.workflowId == id
      ensures g.owner !in w.os.live
    {
    }
    forall g | g in gs && g.owner in w.os.live
      ensures g.workflowId in d'.runs && d'.runs[g.workflowId].owner == g.owner
    {
      if g in w.grants {
        assert g.workflowId in w.disk.runs && w.disk.runs[g.workflowId].owner == g.owner;
      }
    }
    assert Grant(id, me) !in w.grants;
  }

  lemma NoGrantStep(w: World, d': Disk, live': set<Owner>, me: Owner)
    requires Inv(w) && me in w.os.live && live' <= w.os.live && OthersKept(w.disk, d', w.os.live, me)
    requires me in live' ==> MineKept(w.disk, d', me)
    ensures GrantsExclusive(w.(disk := d', os := w.os.(live := live')))
  {
  }

  lemma CallKeepsInv(w: World, me: Owner, op: Op, now: int)
    requires Inv(w) && Enabled(w, Call(me, op, now))
    ensures Inv(Next(w, Call(me, op, now)))
    ensures DiskGrows(w.disk, Next(w, Call(me, op, now)).disk)
    ensures Grants(w, me, op, now) ==>
              forall g | g in w.grants && g.workflowId == op.input.workflowId :: g.owner !in w.os.live
  {
    var ws := Plan(w, me, op, now);
    var d' := ApplyAll(w.disk, ws);
    PlanLegal(w, me, op, now);
    LegalWritesKeep(w.disk, w.os.live, me, ws);
    if Grants(w, me, op, now) {
      GrantStep(w, d', me, op.input.workflowId);
      LocksBackedByClaim(w, d', me, op.input.workflowId);
    } else {
      NoGrantStep(w, d', w.os.live, me);
    }
    assert w.os.(live := w.os.live) == w.os;
    DiskStep(w, d', w.os.live, me);
  }

  lemma LocksBackedByClaim(w: World, d': Disk, me: Owner, id: string)
    requires Inv(w) && me in w.os.live && DiskGrows(w.disk, d') && BeginEffect(w.disk, d', w.os.live, me, id, true)
    ensures forall x | x in d'.locks && d'.locks[x] == Held(me) :: x in d'.runs && d'.runs[x].owner == me
  {
  }

  lemma CrashKeepsInv(w: World, me: Owner, op: Op, now: int, k: nat)
    requires Inv(w) && Enabled(w, Crash(me, op, now, k))
    ensures Inv(Next(w, Crash(me, op, now, k)))
    ensures DiskGrows(w.disk, Next(w, Crash(me, op, now, k)).disk)
  {
    var ws := Plan(w, me, op, now);
    PlanLegal(w, me, op, now);
    LegalPrefix(w.disk, w.os.live, me, ws, k);
    LegalWritesKeep(w.disk, w.os.live, me, ws[..k]);
    DiskStep(w, ApplyAll(w.disk, ws[..k]), w.os.live - {me}, me);
    NoGrantStep(w, ApplyAll(w.disk, ws[..k]), w.os.live - {me}, me);
  }

  lemma ProcessTableKeepsInv(w: World, a: Action)
    requires Inv(w) && Enabled(w, a) && !a.Call? && !a.Crash?
    ensures Inv(Next(w, a)) && Next(w, a).disk == w.disk
  {
    if a.Spawn? {
      forall g | g in w.grants && g.owner in w.os.live + {a.p}
        ensures g.workflowId in w.disk.runs && w.disk.runs[g.workflowId].owner == g.owner
      {
        assert g.owner.token in w.tokens;
      }
    }
  }

  lemma StepKeepsInv(w: World, a: Action)
    requires Inv(w) && Enabled(w, a)
    ensures Inv(Next(w, a)) && DiskGrows(w.disk, Next(w, a).disk)
  {
    match a
    case Call(me, op, now) => CallKeepsInv(w, me, op, now);
    case Crash(me, op, now, k) => CrashKeepsInv(w, me, op, now, k);
    case _ => ProcessTableKeepsInv(w, a);
  }

  lemma {:induction false} InvAfter(w: World, acts: seq<Action>)
    requires Inv(w) && Legal(w, acts)
    ensures Inv(After(w, acts)) && DiskGrows(w.disk, After(w, acts).disk) && w.grants <= After(w, acts).grants
    decreases |acts|
  {
    if acts != [] {
      var w1 := Next(w, acts[0]);
      StepKeepsInv(w, acts[0]);
      InvAfter(w1, acts[1..]);
      DiskGrowsTransitive(w.disk, w1.disk, After(w1, acts[1..]).disk);
    }
  }

  // ----- the theorems -----

  // At most one live process has been told created: true for a workflow, and it was told once.
  lemma ExclusiveExecution(w: World, acts: seq<Action>)
    requires Initial(w) && Legal(w, acts)
    ensures var gs := After(w, acts).grants;
            forall i, j | 0 <= i < j < |gs| && gs[i].workflowId == gs[j].workflowId ::
              !(gs[i].owner in After(w, acts).os.live && gs[j].owner in After(w, acts).os.live)
  {
    InvAfter(w, acts);
    var w' := After(w, acts);
    forall i, j | 0 <= i < j < |w'.grants| && w'.grants[i].workflowId == w'.grants[j].workflowId
      ensures !(w'.grants[i].owner in w'.os.live && w'.grants[j].owner in w'.os.live)
    {
      assert w'.grants[i] in w'.grants && w'.grants[j] in w'.grants;
    }
  }

  // A grant goes out only when every process granted the workflow before is really dead.
  lemma GrantOnlyAfterDeath(w: World, acts: seq<Action>, me: Owner, input: BeginInput, now: int)
    requires Initial(w) && Legal(w, acts)
    requires me in After(w, acts).os.live
    requires BeginPlan(After(w, acts).disk, After(w, acts).os, me, input, now).1.Created?
    ensures forall g | g in After(w, acts).grants && g.workflowId == input.workflowId ::
              g.owner !in After(w, acts).os.live
  {
    InvAfter(w, acts);
    CallKeepsInv(After(w, acts), me, Begin(input), now);
  }

  // In every reachable world each index entry names an existing run carrying its key, `attempts` is one more
  // than the number of duplicate starts, and no two keyed steps of a run share a key.
  lemma LedgerAndIndexAgree(w: World, acts: seq<Action>)
    requires Initial(w) && Legal(w, acts)
    ensures var d := After(w, acts).disk;
            && (forall k | k in d.index :: d.index[k] in d.runs && d.runs[d.index[k]].idempotencyKey == k)
            && (forall id | id in d.runs :: d.runs[id].attempts == 1 + DuplicateStarts(d.runs[id].events))
            && (forall id | id in d.runs :: KeysDistinct(d.runs[id].steps))
  {
    InvAfter(w, acts);
  }

  // Between any two moments of a run, ledgers only grow and a nonempty index entry never changes.
  lemma HistoryOnlyGrows(w: World, acts: seq<Action>, more: seq<Action>)
    requires Initial(w) && Legal(w, acts) && Legal(After(w, acts), more)
    ensures DiskGrows(After(w, acts).disk, After(After(w, acts), more).disk)
  {
    InvAfter(w, acts);
    InvAfter(After(w, acts), more);
  }

  lemma UnresumableStays(r: Run, r': Run)
    requires RunGrows(r, r') && !CanResumeRun(r)
    ensures !CanResumeRun(r')
  {
    var i :| 0 <= i < |r.steps| && r.steps[i].stepId !in SAFE_STEPS;
    assert r'.steps[i].stepId == r.steps[i].stepId;
  }

  lemma NoReplayStep(w: World, a: Action, id: string)
    requires Inv(w) && Enabled(w, a) && id in w.disk.runs && !CanResumeRun(w.disk.runs[id])
    ensures w.grants <= Next(w, a).grants
    ensures forall g | g in Next(w, a).grants[|w.grants|..] :: g.workflowId != id
  {
    if a.Call? && Grants(w, a.me, a.op, a.now) {
      PlanLegal(w, a.me, a.op, a.now);
      assert a.op.input.workflowId != id;
      assert Next(w, a).grants[|w.grants|..] == [Grant(a.op.input.workflowId, a.me)];
    }
  }

  lemma GrantsConcat(a: seq<Grant>, b: seq<Grant>, c: seq<Grant>, id: string)
    requires a <= b <= c
    requires (forall g | g in b[|a|..] :: g.workflowId != id) && (forall g | g in c[|b|..] :: g.workflowId != id)
    ensures forall g | g in c[|a|..] :: g.workflowId != id
  {
    assert c[|a|..] == b[|a|..] + c[|b|..];
  }

  lemma {:induction false} NoReplayFrom(w: World, more: seq<Action>, id: string)
    requires Inv(w) && Legal(w, more) && id in w.disk.runs && !CanResumeRun(w.disk.runs[id])
    ensures w.grants <= After(w, more).grants
    ensures forall g | g in After(w, more).grants[|w.grants|..] :: g.workflowId != id
    decreases |more|
  {
    if more != [] {
      var w1 := Next(w, more[0]);
      StepKeepsInv(w, more[0]);
      UnresumableStays(w.disk.runs[id], w1.disk.runs[id]);
      NoReplayStep(w, more[0], id);
      NoReplayFrom(w1, more[1..], id);
      GrantsConcat(w.grants, w1.grants, After(w1, more[1..]).grants, id);
    }
  }

  // Once a run holds a step outside the safe three, nobody is ever told created: true for it again.
  lemma NoReplayAfterEffect(w: World, acts: seq<Action>, more: seq<Action>, id: string)
    requires Initial(w) && Legal(w, acts) && Legal(After(w, acts), more)
    requires id in After(w, acts).disk.runs && !CanResumeRun(After(w, acts).disk.runs[id])
    ensures var early, late := After(w, acts).grants, After(After(w, acts), more).grants;
            early <= late && forall g | g in late[|early|..] :: g.workflowId != id
  {
    InvAfter(w, acts);
    NoReplayFrom(After(w, acts), more, id);
  }

  // A run can be resumed exactly when all it did was to be accepted, to recall and to match skills.
  lemma ResumableExactly(run: Run)
    ensures CanResumeRun(run) <==>
            forall step | step in run.steps ::
              step.stepId == "orchestrator.accepted" || step.stepId == "memory.recall" || step.stepId == "skills.match"
  {
    assert forall i | 0 <= i < |run.steps| :: run.steps[i] in run.steps;
    assert forall id: string :: id in SAFE_STEPS <==> id == SAFE_STEPS[0] || id == SAFE_STEPS[1] || id == SAFE_STEPS[2];
  }

  // Recording an effect makes a resumable run unresumable exactly when the call names no key
  // that a step already carries.
  lemma RecordQuarantinesIff(run: Run, step: StepInput, now: int)
    requires CanResumeRun(run) && step.stepId !in SAFE_STEPS
    ensures !CanResumeRun(Recorded(run, step, now)) <==>
            step.key == "" || forall s | s in run.steps :: s.key != step.key
  {
    var run' := Recorded(run, step, now);
    if FindStep(run.steps, step) == |run.steps| {
      assert run'.steps[|run.steps|].stepId == step.stepId;
      forall s | s in run.steps && step.key != ""
        ensures s.key != step.key
      {
        var i :| 0 <= i < |run.steps| && run.steps[i] == s;
        assert !StepMatches(run.steps[i], step);
      }
    } else {
      assert run.steps[FindStep(run.steps, step)] in run.steps;
    }
  }

  // ----- index entries -----

  ghost predicate Returns(outcome: BeginOutcome) {
    outcome.Created? || outcome.Duplicate? || outcome.InterruptedExecution?
  }

  // The request was the run's own, or the claim of a new run went through.
  ghost predicate Admitted(d: Disk, os: Os, me: Owner, input: BeginInput) {
    var id := LookedUp(d, input);
    if id in d.runs then SameRequest(d.runs[id], input) else ClaimPlan(d, os, me, input.workflowId).1 == None
  }

  lemma ReturnsIffAdmitted(d: Disk, os: Os, me: Owner, input: BeginInput, now: int)
    ensures Returns(BeginPlan(d, os, me, input, now).1) <==> Admitted(d, os, me, input)
  {
  }

  lemma AdmittedEntry(w: World, me: Owner, input: BeginInput, d': Disk)
    requires Inv(w) && DiskOk(d') && d'.index == BeginIndex(w.disk, w.os, me, input)
    requires Admitted(w.disk, w.os, me, input)
    ensures input.idempotencyKey in d'.index && d'.index[input.idempotencyKey] in {input.workflowId, ""}
  {
    LookupStaysWithInput(w, input);
  }

  // A begin that returns a run, or that quarantines one, leaves the entry of its key in place,
  // writing it again if a crash had lost it.
  lemma BeginLeavesEntry(w: World, me: Owner, input: BeginInput, now: int)
    requires Inv(w) && me in w.os.live
    requires Returns(BeginPlan(w.disk, w.os, me, input, now).1)
    ensures var d' := Next(w, Call(me, Begin(input), now)).disk;
            input.idempotencyKey in d'.index && d'.index[input.idempotencyKey] in {input.workflowId, ""}
  {
    BeginLegal(w, me, input, now);
    ReturnsIffAdmitted(w.disk, w.os, me, input, now);
    CallKeepsInv(w, me, Begin(input), now);
    AdmittedEntry(w, me, input, Next(w, Call(me, Begin(input), now)).disk);
  }

  // An entry changes exactly when it is empty and its key starts a new, differently named workflow.
  lemma EntryChangesIff(w: World, me: Owner, input: BeginInput, now: int, k: string)
    requires Inv(w) && me in w.os.live && k in w.disk.index
    ensures var d' := Next(w, Call(me, Begin(input), now)).disk;
            k in d'.index &&
            (d'.index[k] != w.disk.index[k] <==>
              && k == input.idempotencyKey && w.disk.index[k] == "" && input.workflowId !in w.disk.runs
              && (input.workflowId in w.disk.locks ==>
                    w.disk.locks[input.workflowId].Held? &&
                    !OwnerAlive(w.os, me, w.disk.locks[input.workflowId].owner)))
  {
    BeginLegal(w, me, input, now);
    LookupStaysWithInput(w, input);
  }

  // ----- reconciliation -----

  // Reconciliation rewrites exactly the listed runs that need review, and no others.
  lemma {:induction false} ReconcileExactly(d: Disk, os: Os, me: Owner, order: seq<string>, now: int)
    requires forall id | id in d.runs :: d.runs[id].workflowId == id
    ensures var d' := ApplyAll(d, ReconcilePlan(d, os, me, order, now));
            d'.runs.Keys == d.runs.Keys && d'.index == d.index && d'.locks == d.locks &&
            forall id | id in d.runs :: d'.runs[id] ==
              if id in order && NeedsReview(os, me, d.runs[id]) then Quarantined(d.runs[id].(updatedAt := now), now)
              else d.runs[id]
    decreases |order|
  {
    if order != [] {
      var ws := ReviewPlan(d, os, me, order[0], now);
      var d1 := ApplyAll(d, ws);
      if ws != [] {
        assert ws[1..] == [];
        assert ApplyAll(Apply(d, ws[0]), ws[1..]) == d1;
      }
      ReconcileExactly(d1, os, me, order[1..], now);
      ApplyAllConcat(d, ws, ReconcilePlan(d1, os, me, order[1..], now));
      assert forall id :: id in order <==> id == order[0] || id in order[1..];
    }
  }

  ghost function OwnRequest(run: Run): BeginInput {
    BeginInput(run.workflowId, run.idempotencyKey, run.conversationId)
  }

  // The index leads from the key of a run to that run: its entry names the run, or is missing or empty.
  ghost predicate Named(d: Disk, id: string)
    requires id in d.runs
  {
    LookedUp(d, OwnRequest(d.runs[id])) == id
  }

  // What starting a run again answers, whatever its status and whoever owns it: a conflict when its key has gone to
  // another workflow; otherwise a duplicate when it is over or its owner counts as alive, and only a running run of a
  // dead owner is granted or refused as interrupted.
  lemma AnswersExactly(w: World, me: Owner, id: string, now: int)
    requires Inv(w) && me in w.os.live && id in w.disk.runs
    ensures var run := w.disk.runs[id];
            var answer := BeginPlan(w.disk, w.os, me, OwnRequest(run), now).1;
            var abandoned := run.status == Running && !OwnerAlive(w.os, me, run.owner);
            && (answer == WorkflowConflict <==> !Named(w.disk, id))
            && (answer.Duplicate? <==> Named(w.disk, id) && !abandoned)
            && (answer.Created? <==> Named(w.disk, id) && abandoned && CanResumeRun(run))
            && (answer == InterruptedExecution <==> Named(w.disk, id) && abandoned && !CanResumeRun(run))
  {
  }

  lemma LastPutStands(d: Disk, ws: seq<Write>, run: Run)
    ensures ApplyAll(d, ws + [PutRun(run)]) == Apply(ApplyAll(d, ws), PutRun(run))
  {
    var d' := ApplyAll(d, ws);
    ApplyAllConcat(d, ws, [PutRun(run)]);
    assert ApplyAll(Apply(d', PutRun(run)), [PutRun(run)][1..]) == ApplyAll(d', [PutRun(run)]);
  }

  lemma AnswerIsStored(w: World, me: Owner, input: BeginInput, now: int)
    requires Inv(w) && me in w.os.live
    ensures var (ws, answer) := BeginPlan(w.disk, w.os, me, input, now);
            answer.Created? || answer.Duplicate? ==>
              && OwnRequest(answer.run) == input && input.workflowId in ApplyAll(w.disk, ws).runs
              && ApplyAll(w.disk, ws).runs[input.workflowId] == answer.run
  {
    var (ws, answer) := BeginPlan(w.disk, w.os, me, input, now);
    LookupStaysWithInput(w, input);
    if answer.Created? && input.workflowId !in w.disk.runs {
      var put := ws[..|ws| - 1];
      assert put[..|put| - 1] + [PutRun(answer.run)] == put;
      LastPutStands(w.disk, put[..|put| - 1], answer.run);
      AppendedIndex(w.disk, put, input.idempotencyKey, input.workflowId);
      assert ws == put + [PutIndex(input.idempotencyKey, input.workflowId)];
    } else if answer.Created? || answer.Duplicate? {
      assert ws == ws[..|ws| - 1] + [PutRun(answer.run)];
      LastPutStands(w.disk, ws[..|ws| - 1], answer.run);
    }
  }

  lemma AppendedIndex(d: Disk, ws: seq<Write>, key: string, id: string)
    ensures ApplyAll(d, ws + [PutIndex(key, id)]).runs == ApplyAll(d, ws).runs
  {
    var d' := ApplyAll(d, ws);
    ApplyAllConcat(d, ws, [PutIndex(key, id)]);
    assert ApplyAll(Apply(d', PutIndex(key, id)), [PutIndex(key, id)][1..]) == ApplyAll(d', [PutIndex(key, id)]);
  }

  // Whatever run a begin answers with is the run it asked for, as stored from then on; and it is a conflict exactly
  // when the run its key or its workflow leads to was asked for differently.
  lemma AnswerIsForTheRequest(w: World, me: Owner, input: BeginInput, now: int)
    requires Inv(w) && me in w.os.live
    ensures var answer := BeginPlan(w.disk, w.os, me, input, now).1;
            var d' := Next(w, Call(me, Begin(input), now)).disk;
            && (answer.Created? || answer.Duplicate? ==>
                  OwnRequest(answer.run) == input && input.workflowId in d'.runs &&
                  d'.runs[input.workflowId] == answer.run)
            && (answer == WorkflowConflict <==>
                  exists id | id in w.disk.runs :: LeadsTo(w.disk, input, id) && OwnRequest(w.disk.runs[id]) != input)
  {
    AnswerIsStored(w, me, input, now);
    if BeginPlan(w.disk, w.os, me, input, now).1 == WorkflowConflict {
      assert LeadsTo(w.disk, input, LookedUp(w.disk, input));
    }
  }

  // The index entry of the key names the run; without an entry, or with an empty one, the workflow id does.
  ghost predicate LeadsTo(d: Disk, input: BeginInput, id: string) {
    if input.idempotencyKey in d.index && d.index[input.idempotencyKey] != "" then d.index[input.idempotencyKey] == id
    else input.workflowId == id
  }

  // Starting any run again is refused as interrupted exactly when it needs review and the index leads to it.
  lemma RefusedIffReviewed(w: World, me: Owner, id: string, now: int)
    requires Inv(w) && me in w.os.live && id in w.disk.runs
    ensures var run := w.disk.runs[id];
            BeginPlan(w.disk, w.os, me, OwnRequest(run), now).1 == InterruptedExecution <==>
            NeedsReview(w.os, me, run) && Named(w.disk, id)
  {
  }

  // Reconciliation interrupts exactly the listed runs that need review. Among those the index leads to, they are the
  // ones a begin would refuse as interrupted, and afterwards starting them again is a plain duplicate; the others are
  // refused as a conflict before and after.
  lemma ReviewIffBeginRefuses(w: World, me: Owner, order: seq<string>, id: string, now: int)
    requires Inv(w) && me in w.os.live && id in w.disk.runs && id in order
    ensures var run := w.disk.runs[id];
            var d' := Next(w, Call(me, Reconcile(order), now)).disk;
            var before := BeginPlan(w.disk, w.os, me, OwnRequest(run), now).1;
            var after := BeginPlan(d', w.os, me, OwnRequest(run), now).1;
            && id in d'.runs && (d'.runs[id] != run <==> NeedsReview(w.os, me, run))
            && (before == InterruptedExecution <==> NeedsReview(w.os, me, run) && Named(w.disk, id))
            && (NeedsReview(w.os, me, run) ==>
                  if Named(w.disk, id) then after.Duplicate? else before == after == WorkflowConflict)
  {
    hide BeginPlan, Named, TokensKnown, LocksBacked, GrantsExclusive, OwnerAlive, CanResumeRun;
    ReconcileExactly(w.disk, w.os, me, order, now);
    RefusedIffReviewed(w, me, id, now);
    ReviewedRun(w.os, me, w.disk.runs[id], now);
    if NeedsReview(w.os, me, w.disk.runs[id]) {
      AnswersExactly(w, me, id, now);
      AnswersAfterReview(w, me, id, Next(w, Call(me, Reconcile(order), now)).disk, now);
    }
  }

  lemma ReviewedRun(os: Os, me: Owner, run: Run, now: int)
    ensures Quarantined(run.(updatedAt := now), now) != run
  {
    assert |Quarantined(run.(updatedAt := now), now).events| == |run.events| + 1;
  }

  lemma AnswersAfterReview(w: World, me: Owner, id: string, d': Disk, now: int)
    requires Inv(w) && id in w.disk.runs && d'.index == w.disk.index && d'.runs.Keys == w.disk.runs.Keys
    requires forall x | x in d'.runs :: d'.runs[x].workflowId == x
    requires d'.runs[id] == Quarantined(w.disk.runs[id].(updatedAt := now), now)
    ensures var after := BeginPlan(d', w.os, me, OwnRequest(w.disk.runs[id]), now).1;
            if Named(w.disk, id) then after.Duplicate? else after == WorkflowConflict
  {
  }

  // Availability: a running, still resumable run whose owner is dead, and whose pid no other process has taken, is
  // granted to whoever asks exactly when the index leads to it; otherwise it is refused as a conflict.
  lemma DeadOwnerIsSucceeded(w: World, me: Owner, id: string, now: int)
    requires Inv(w) && me in w.os.live && id in w.disk.runs
    requires w.disk.runs[id].status == Running && CanResumeRun(w.disk.runs[id])
    requires var o := w.disk.runs[id].owner; o !in w.os.live && (o.pid == me.pid || !w.os.PidInUse(o.pid))
    ensures var answer := BeginPlan(w.disk, w.os, me, OwnRequest(w.disk.runs[id]), now).1;
            if Named(w.disk, id) then answer.Created? else answer == WorkflowConflict
  {
    OwnerAliveExact(w.os, me, w.disk.runs[id].owner);
    AnswersExactly(w, me, id, now);
  }

  // ----- orphans -----

  // The key of the run has gone to another workflow.
  ghost predicate Orphaned(d: Disk, id: string) {
    id in d.runs && !Named(d, id)
  }

  lemma OrphanStays(d: Disk, d': Disk, id: string)
    requires DiskOk(d) && DiskOk(d') && DiskGrows(d, d') && Orphaned(d, id)
    ensures Orphaned(d', id)
  {
  }

  lemma OrphanIsNotGranted(w: World, me: Owner, input: BeginInput, now: int, id: string)
    requires Inv(w) && Orphaned(w.disk, id) && BeginPlan(w.disk, w.os, me, input, now).1.Created?
    ensures input.workflowId != id
  {
    LookupStaysWithInput(w, input);
  }

  lemma OrphanStep(w: World, a: Action, id: string)
    requires Inv(w) && Enabled(w, a) && Orphaned(w.disk, id)
    ensures Orphaned(Next(w, a).disk, id) && w.grants <= Next(w, a).grants
    ensures forall g | g in Next(w, a).grants[|w.grants|..] :: g.workflowId != id
  {
    hide Orphaned, BeginPlan, DiskOk, TokensKnown, LocksBacked, GrantsExclusive;
    StepKeepsInv(w, a);
    OrphanStays(w.disk, Next(w, a).disk, id);
    if a.Call? && Grants(w, a.me, a.op, a.now) {
      OrphanIsNotGranted(w, a.me, a.op.input, a.now, id);
      assert Next(w, a).grants[|w.grants|..] == [Grant(a.op.input.workflowId, a.me)];
    }
  }

  lemma {:induction false} OrphanFrom(w: World, more: seq<Action>, id: string)
    requires Inv(w) && Legal(w, more) && Orphaned(w.disk, id)
    ensures Orphaned(After(w, more).disk, id) && w.grants <= After(w, more).grants
    ensures forall g | g in After(w, more).grants[|w.grants|..] :: g.workflowId != id
    decreases |more|
  {
    if more != [] {
      var w1 := Next(w, more[0]);
      StepKeepsInv(w, more[0]);
      OrphanStep(w, more[0], id);
      OrphanFrom(w1, more[1..], id);
      GrantsConcat(w.grants, w1.grants, After(w1, more[1..]).grants, id);
    }
  }

  // Once the key of a run has gone to another workflow, the run is never granted again, to anybody, resumable or not.
  lemma OrphanIsNeverGranted(w: World, acts: seq<Action>, more: seq<Action>, id: string)
    requires Initial(w) && Legal(w, acts) && Legal(After(w, acts), more) && Orphaned(After(w, acts).disk, id)
    ensures Orphaned(After(After(w, acts), more).disk, id)
    ensures var early, late := After(w, acts).grants, After(After(w, acts), more).grants;
            early <= late && forall g | g in late[|early|..] :: g.workflowId != id
  {
    InvAfter(w, acts);
    OrphanFrom(After(w, acts), more, id);
  }
}
