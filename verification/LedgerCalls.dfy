/** What each call leaves on disk, field by field: the runs returned, the log, the steps, the locks. */
module LedgerCalls {
  import opened Wrappers
  import opened LedgerModel
  import opened LedgerProtocol
  import opened LedgerSafety

  // ----- begin -----

  // What the restart of a run adds to its log.
  ghost function RestartLog(answer: BeginOutcome, now: int): seq<Event> {
    [Event(now, DuplicateStart, None)] +
    (if answer.Created? then [Event(now, SafePreExecutionResume, None)]
     else if answer.InterruptedExecution? then [Event(now, RecoveryRequiresReview, None)]
     else [])
  }

  lemma RestartStores(w: World, me: Owner, input: BeginInput, now: int)
    requires Inv(w) && me in w.os.live && input.workflowId in w.disk.runs
    requires SameRequest(w.disk.runs[input.workflowId], input)
    ensures var run := w.disk.runs[input.workflowId];
            var (ws, answer) := ExistingPlan(w.disk, w.os, me, input, run, now);
            ApplyAll(w.disk, ws).runs ==
              w.disk.runs[input.workflowId :=
                run.(attempts := run.attempts + 1, updatedAt := now, events := run.events + RestartLog(answer, now),
                     status := if answer.InterruptedExecution? then Interrupted else run.status,
                     owner := if answer.Created? then me else run.owner)]
  {
    var run := w.disk.runs[input.workflowId];
    var (ws, answer) := ExistingPlan(w.disk, w.os, me, input, run, now);
    var last := ws[|ws| - 1];
    assert ws == ws[..|ws| - 1] + [last] && last.PutRun?;
    LastPutStands(w.disk, ws[..|ws| - 1], last.run);
    OnlyOthers(w.disk, ws[..|ws| - 1]);
    assert run.events + RestartLog(answer, now) == last.run.events by {
      assert run.events + [Event(now, DuplicateStart, None)] + [] == run.events + [Event(now, DuplicateStart, None)];
    }
  }

  // Writes that store no run leave the runs alone.
  lemma {:induction false} OnlyOthers(d: Disk, ws: seq<Write>)
    requires forall w | w in ws :: !w.PutRun?
    ensures ApplyAll(d, ws).runs == d.runs
    decreases |ws|
  {
    if ws != [] {
      assert ws[0] in ws && forall w | w in ws[1..] :: w in ws;
      OnlyOthers(Apply(d, ws[0]), ws[1..]);
    }
  }

  lemma FreshStores(d: Disk, os: Os, me: Owner, input: BeginInput, now: int)
    ensures var (ws, answer) := FreshPlan(d, os, me, input, now);
            ApplyAll(d, ws).runs == if answer.Created? then d.runs[input.workflowId := answer.run] else d.runs
  {
    var (ws, answer) := FreshPlan(d, os, me, input, now);
    if answer.Created? {
      var put := ws[..|ws| - 1];
      assert put == put[..|put| - 1] + [PutRun(answer.run)];
      LastPutStands(d, put[..|put| - 1], answer.run);
      OnlyOthers(d, put[..|put| - 1]);
      assert ws == put + [PutIndex(input.idempotencyKey, input.workflowId)];
      AppendedIndex(d, put, input.idempotencyKey, input.workflowId);
    }
  }

  // A begin that answers with a run, or quarantines one, counts and logs the start; it takes the run over exactly when
  // it answers created, and interrupts it exactly when it answers so. A new run is running, is its starter's, and has
  // no step. No other run changes, and no run changes otherwise.
  lemma BeginExactly(w: World, me: Owner, input: BeginInput, now: int)
    requires Inv(w) && me in w.os.live
    ensures var d, d' := w.disk, Next(w, Call(me, Begin(input), now)).disk;
            var answer := BeginPlan(w.disk, w.os, me, input, now).1;
            if !Returns(answer) then d'.runs == d.runs
            else if input.workflowId in d.runs then
              var run := d.runs[input.workflowId];
              d'.runs == d.runs[input.workflowId :=
                run.(attempts := run.attempts + 1, updatedAt := now, events := run.events + RestartLog(answer, now),
                     status := if answer.InterruptedExecution? then Interrupted else run.status,
                     owner := if answer.Created? then me else run.owner)]
            else
              d'.runs == d.runs[input.workflowId :=
                Run(input.workflowId, input.idempotencyKey, input.conversationId, Running, 1, now, now, None, [],
                    [Event(now, RunStarted, None)], me)]
  {
    hide ExistingPlan, FreshPlan, GrantsExclusive, TokensKnown, LocksBacked;
    LookupStaysWithInput(w, input);
    ReturnsIffAdmitted(w.disk, w.os, me, input, now);
    var id := LookedUp(w.disk, input);
    if id !in w.disk.runs {
      FreshStores(w.disk, w.os, me, input, now);
      FreshAnswer(w.disk, w.os, me, input, now);
    } else if SameRequest(w.disk.runs[id], input) {
      RestartStores(w, me, input, now);
    }
  }

  lemma FreshAnswer(d: Disk, os: Os, me: Owner, input: BeginInput, now: int)
    ensures var answer := FreshPlan(d, os, me, input, now).1;
            Returns(answer) ==> answer == Created(
              Run(input.workflowId, input.idempotencyKey, input.conversationId, Running, 1, now, now, None, [],
                  [Event(now, RunStarted, None)], me))
  {
  }

  // A claim that goes through writes nothing but the lock: it drops the one there is, if there is one, then creates its
  // own and fills it.
  lemma ClaimExactly(d: Disk, os: Os, me: Owner, id: string)
    ensures var (ws, error) := ClaimPlan(d, os, me, id);
            && (error.Some? ==> ws == [])
            && (error == None ==>
                  ws == (if id in d.locks then [DropLock(id)] else []) + [CreateLock(id), FillLock(id, me)])
            && (error == None <==> id !in d.locks || (d.locks[id].Held? && !OwnerAlive(os, me, d.locks[id].owner)))
            && (error == Some(UnreadableLock) <==> id in d.locks && d.locks[id] == Torn)
            && (error == Some(AlreadyActive) <==>
                  id in d.locks && d.locks[id].Held? && OwnerAlive(os, me, d.locks[id].owner))
  {
    assert [] + [CreateLock(id), FillLock(id, me)] == [CreateLock(id), FillLock(id, me)];
  }

  // ----- record -----

  // The step at i is the one a record is about: the first with its key or, if it has none, with its id.
  ghost predicate IsAbout(steps: seq<StepRecord>, step: StepInput, i: int) {
    && 0 <= i < |steps|
    && (if step.key != "" then steps[i].key == step.key else steps[i].stepId == step.stepId)
    && forall k | 0 <= k < i :: if step.key != "" then steps[k].key != step.key else steps[k].stepId != step.stepId
  }

  ghost predicate IsNew(steps: seq<StepRecord>, step: StepInput) {
    forall i :: !IsAbout(steps, step, i)
  }

  lemma StepIsFound(steps: seq<StepRecord>, step: StepInput)
    ensures forall i :: IsAbout(steps, step, i) <==> i == FindStep(steps, step) && i < |steps|
  {
  }

  // A record gives the step it is about the status and the time, or adds one; it logs which of the two it did, and
  // makes the step the current one. Nothing else changes.
  lemma RecordExactly(w: World, me: Owner, step: StepInput, now: int)
    requires Inv(w) && me in w.os.live && step.workflowId in w.disk.runs
    ensures var d, d' := w.disk, Next(w, Call(me, Record(step), now)).disk;
            var run := d.runs[step.workflowId];
            && step.workflowId in d'.runs
            && var run' := d'.runs[step.workflowId];
               && d' == d.(runs := d.runs[step.workflowId := run'])
               && run' == run.(steps := run'.steps, currentStep := Some(step.stepId), updatedAt := now,
                               events := run'.events)
               && (forall i | IsAbout(run.steps, step, i) ::
                     run'.steps == run.steps[i := run.steps[i].(status := step.status, updatedAt := now)] &&
                     run'.events == run.events + [Event(now, StepDuplicateOrUpdate, Some(step.stepId))])
               && (IsNew(run.steps, step) ==>
                     run'.steps == run.steps + [StepRecord(step.stepId, step.status, step.key, now, now)] &&
                     run'.events == run.events + [Event(now, StepRecorded, Some(step.stepId))])
  {
    var run := w.disk.runs[step.workflowId];
    var run' := Recorded(run, step, now);
    StepIsFound(run.steps, step);
    LastPutStands(w.disk, [], run');
    assert [] + [PutRun(run')] == [PutRun(run')];
    if FindStep(run.steps, step) < |run.steps| {
      assert IsAbout(run.steps, step, FindStep(run.steps, step));
    }
  }

  // ----- mark -----

  // A mark gives the run the status, and changes nothing else but the time and the log. When that ends the run for the
  // process that owns it, the lock is free; no other lock changes.
  lemma MarkExactly(w: World, me: Owner, id: string, status: RunStatus, now: int)
    requires Inv(w) && me in w.os.live && id in w.disk.runs
    ensures var d, d' := w.disk, Next(w, Call(me, Mark(id, status), now)).disk;
            && id in d'.runs && d'.runs[id].status == status && d'.runs[id].updatedAt == now
            && d'.runs[id] == d.runs[id].(status := status, updatedAt := now, events := d'.runs[id].events)
            && d'.runs[id].events == d.runs[id].events + [Event(now, RunMarked(status), None)]
            && d'.runs == d.runs[id := d'.runs[id]] && d'.index == d.index
            && d'.locks == if status != Running && d.runs[id].owner.token == me.token then d.locks - {id} else d.locks
  {
    var ws := MarkPlan(w.disk, me, id, status, now);
    var run := Marked(w.disk.runs[id], status, now);
    LastPutStands(w.disk, [], run);
    assert [] + [PutRun(run)] == [PutRun(run)];
    if |ws| == 2 {
      var d1 := ApplyAll(w.disk, [PutRun(run)]);
      ApplyAllConcat(w.disk, [PutRun(run)], [DropLock(id)]);
      assert ApplyAll(Apply(d1, DropLock(id)), [DropLock(id)][1..]) == ApplyAll(d1, [DropLock(id)]);
    }
  }

  // ----- crashes in the middle -----

  // In a restart the run is written last, in a fresh start the index entry after the run.
  lemma RestartPrefix(w: World, me: Owner, input: BeginInput, now: int, k: nat)
    requires Inv(w) && me in w.os.live && input.workflowId in w.disk.runs
    requires SameRequest(w.disk.runs[input.workflowId], input)
    requires k < |ExistingPlan(w.disk, w.os, me, input, w.disk.runs[input.workflowId], now).0|
    ensures var ws := ExistingPlan(w.disk, w.os, me, input, w.disk.runs[input.workflowId], now).0;
            ApplyAll(w.disk, ws[..k]).runs == w.disk.runs
  {
    var ws := ExistingPlan(w.disk, w.os, me, input, w.disk.runs[input.workflowId], now).0;
    assert forall i | 0 <= i < |ws| - 1 :: !ws[i].PutRun?;
    OnlyOthers(w.disk, ws[..k]);
  }

  lemma FreshPrefix(w: World, me: Owner, input: BeginInput, now: int, k: nat)
    requires Inv(w) && me in w.os.live && k <= |FreshPlan(w.disk, w.os, me, input, now).0|
    ensures var d' := ApplyAll(w.disk, FreshPlan(w.disk, w.os, me, input, now).0[..k]);
            d'.runs == w.disk.runs || (input.workflowId in d'.locks && d'.locks[input.workflowId] == Held(me))
  {
    var d, id := w.disk, input.workflowId;
    var (ws, answer) := FreshPlan(d, w.os, me, input, now);
    if answer.Created? {
      var claim := Release(d, id) + Claim(id, me);
      if id in d.locks {
        OwnerAliveExact(w.os, me, d.locks[id].owner);
      }
      ReclaimLegal(d, w.os.live, me, id);
      if k <= |claim| {
        assert forall x | x in ws[..k] :: !x.PutRun?;
        OnlyOthers(d, ws[..k]);
      } else {
        assert ws[..k] == if k == |ws| then claim + [PutRun(answer.run)] + [PutIndex(input.idempotencyKey, id)]
                          else claim + [PutRun(answer.run)];
        LastPutStands(d, claim, answer.run);
        AppendedLocks(d, claim + [PutRun(answer.run)], input.idempotencyKey, id);
      }
    } else {
      assert ws[..k] == [];
    }
  }

  lemma AppendedLocks(d: Disk, ws: seq<Write>, key: string, id: string)
    ensures ApplyAll(d, ws + [PutIndex(key, id)]).locks == ApplyAll(d, ws).locks
  {
    var d' := ApplyAll(d, ws);
    ApplyAllConcat(d, ws, [PutIndex(key, id)]);
    assert ApplyAll(Apply(d', PutIndex(key, id)), [PutIndex(key, id)][1..]) == ApplyAll(d', [PutIndex(key, id)]);
  }

  // Wherever a begin dies, a run it has stored as its own is under its lock, and a run it has changed is indexed.
  lemma StoredUnderItsLock(w: World, me: Owner, input: BeginInput, now: int, k: nat)
    requires Inv(w) && me in w.os.live && k <= |BeginPlan(w.disk, w.os, me, input, now).0|
    ensures var id, d, d' := input.workflowId, w.disk, ApplyAll(w.disk, BeginPlan(w.disk, w.os, me, input, now).0[..k]);
            && (id in d'.runs && (id !in d.runs || d'.runs[id].owner != d.runs[id].owner) ==>
                  id in d'.locks && d'.locks[id] == Held(me))
            && (id in d.runs && id in d'.runs && d'.runs[id] != d.runs[id] ==> input.idempotencyKey in d'.index)
  {
    hide ExistingPlan, FreshPlan, GrantsExclusive, TokensKnown, LocksBacked, Returns;
    var ws := BeginPlan(w.disk, w.os, me, input, now).0;
    LookupStaysWithInput(w, input);
    var id := LookedUp(w.disk, input);
    if id !in w.disk.runs {
      FreshPrefix(w, me, input, now, k);
    } else if SameRequest(w.disk.runs[id], input) {
      if k < |ws| {
        RestartPrefix(w, me, input, now, k);
      } else {
        assert ws[..k] == ws;
        ExistingLegal(w, me, input, now);
      }
    } else {
      assert ws[..k] == [];
    }
  }

  // Wherever a mark dies, the lock is only gone once the run has its status.
  lemma MarkedBeforeUnlocked(w: World, me: Owner, id: string, status: RunStatus, now: int, k: nat)
    requires Inv(w) && me in w.os.live && k <= |MarkPlan(w.disk, me, id, status, now)|
    ensures var d, d' := w.disk, ApplyAll(w.disk, MarkPlan(w.disk, me, id, status, now)[..k]);
            id in d.locks && id !in d'.locks ==> id in d'.runs && d'.runs[id].status == status
  {
    var ws := MarkPlan(w.disk, me, id, status, now);
    if k == |ws| && id in w.disk.runs {
      assert ws[..k] == ws;
      MarkExactly(w, me, id, status, now);
    } else if k == 1 {
      assert ws[..1] == [] + [ws[0]];
      LastPutStands(w.disk, [], ws[0].run);
    }
  }
}
