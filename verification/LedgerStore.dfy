/** The ledger as the program runs it: three mutable stores, changed one file at a time. */
module LedgerStore {
  import opened Wrappers
  import opened LedgerModel

  lemma PlanUnfolds(d: Disk, os: Os, me: Owner, order: seq<string>, n: nat, now: int)
    requires n < |order|
    ensures var ws := ReviewPlan(d, os, me, order[n], now);
            ReconcilePlan(d, os, me, order[n..], now) ==
            ws + ReconcilePlan(ApplyAll(d, ws), os, me, order[n + 1..], now)
  {
    assert order[n..][0] == order[n] && order[n..][1..] == order[n + 1..];
  }

  lemma Regrouped<T>(a: seq<T>, b: seq<T>, c: seq<T>)
    ensures a + (b + c) == a + b + c
  {
  }

  class Ledger {
    var runs: map<string, Run>
    var index: map<string, string>
    var locks: map<string, Lock>

    // Every disk write since the ledger was opened, oldest first.
    ghost const origin: Disk
    ghost var journal: seq<Write>

    ghost function Contents(): Disk
      reads this
    {
      Disk(runs, index, locks)
    }

    ghost predicate Valid()
      reads this
    {
      && Contents() == ApplyAll(origin, journal)
      && forall id | id in runs :: runs[id].workflowId == id
    }

    constructor (runs: map<string, Run>, index: map<string, string>, locks: map<string, Lock>)
      requires forall id | id in runs :: runs[id].workflowId == id
      ensures Valid() && journal == [] && Contents() == Disk(runs, index, locks)
    {
      this.runs, this.index, this.locks := runs, index, locks;
      origin, journal := Disk(runs, index, locks), [];
    }

    ghost method Log(w: Write)
      requires Valid'(w)
      modifies this`journal
      ensures Valid() && journal == old(journal) + [w]
    {
      ApplyAllConcat(origin, journal, [w]);
      assert ApplyAll(Apply(ApplyAll(origin, journal), w), []) == Contents();
      journal := journal + [w];
    }

    // The stores already show w, the journal does not yet.
    ghost predicate Valid'(w: Write)
      reads this
    {
      && Contents() == Apply(ApplyAll(origin, journal), w)
      && forall id | id in runs :: runs[id].workflowId == id
    }

    method PersistRun(run: Run)
      requires Valid()
      modifies this
      ensures Valid() && journal == old(journal) + [PutRun(run)]
      ensures Contents() == Apply(old(Contents()), PutRun(run))
    {
      runs := runs[run.workflowId := run];
      Log(PutRun(run));
    }

    method PersistIndex(key: string, id: string)
      requires Valid()
      modifies this
      ensures Valid() && journal == old(journal) + [PutIndex(key, id)]
      ensures Contents() == Apply(old(Contents()), PutIndex(key, id))
    {
      index := index[key := id];
      Log(PutIndex(key, id));
    }

    method Unlink(id: string)
      requires Valid()
      modifies this
      ensures Valid() && journal == old(journal) + [DropLock(id)]
      ensures Contents() == Apply(old(Contents()), DropLock(id))
    {
      locks := locks - {id};
      Log(DropLock(id));
    }

    // Creates the lock file exclusively, then writes the holder into it.
    method OpenExclusive(id: string, me: Owner) returns (created: bool)
      requires Valid()
      modifies this
      ensures Valid() && created == (id !in old(locks))
      ensures journal == old(journal) + if created then Claim(id, me) else []
      ensures Contents() == ApplyAll(old(Contents()), if created then Claim(id, me) else [])
    {
      created := id !in locks;
      if created {
        locks := locks[id := Torn];
        Log(CreateLock(id));
        locks := locks[id := Held(me)];
        Log(FillLock(id, me));
        assert old(journal) + [CreateLock(id)] + [FillLock(id, me)] == old(journal) + Claim(id, me);
        ApplyAllConcat(origin, old(journal), Claim(id, me));
      }
    }

    // None when the claim was made, otherwise the error.
    method ClaimRun(os: Os, me: Owner, id: string) returns (error: Option<BeginOutcome>)
      requires Valid()
      modifies this
      ensures Valid() && error == ClaimPlan(old(Contents()), os, me, id).1
      ensures journal == old(journal) + ClaimPlan(old(Contents()), os, me, id).0
    {
      if id in locks {
        if locks[id] == Torn {
          return Some(UnreadableLock);
        }
        if !OwnerAlive(os, me, locks[id].owner) {
          Unlink(id);
        }
      }
      var created := OpenExclusive(id, me);
      error := if created then None else Some(AlreadyActive);
    }

    method BeginRunUnderLock(os: Os, me: Owner, input: BeginInput, now: int) returns (outcome: BeginOutcome)
      requires Valid()
      modifies this
      ensures Valid()
      ensures journal == old(journal) + BeginPlan(old(Contents()), os, me, input, now).0
      ensures outcome == BeginPlan(old(Contents()), os, me, input, now).1
    {
      var entry := if input.idempotencyKey in index then Some(index[input.idempotencyKey]) else None;
      var id := if entry.Some? && entry.value != "" then entry.value else input.workflowId;
      if id in runs {
        var existing := runs[id];
        if existing.idempotencyKey != input.idempotencyKey || existing.conversationId != input.conversationId ||
           existing.workflowId != input.workflowId {
          return WorkflowConflict;
        }
        outcome := RestartExisting(os, me, input, existing, now);
      } else {
        outcome := StartFresh(os, me, input, now);
      }
    }

    method RestartExisting(os: Os, me: Owner, input: BeginInput, found: Run, now: int) returns (outcome: BeginOutcome)
      requires Valid() && input.workflowId in runs && found == runs[input.workflowId] && SameRequest(found, input)
      modifies this
      ensures Valid()
      ensures journal == old(journal) + ExistingPlan(old(Contents()), os, me, input, found, now).0
      ensures outcome == ExistingPlan(old(Contents()), os, me, input, found, now).1
    {
      if input.idempotencyKey !in index {
        PersistIndex(input.idempotencyKey, found.workflowId);
      }
      var existing := found.(attempts := found.attempts + 1, updatedAt := now,
                             events := found.events + [Event(now, DuplicateStart, None)]);
      if found.status == Running && !OwnerAlive(os, me, found.owner) {
        if !CanResumeRun(existing) {
          existing := existing.(status := Interrupted,
                                events := existing.events + [Event(now, RecoveryRequiresReview, None)]);
          PersistRun(existing);
          return InterruptedExecution;
        }
        existing := existing.(owner := me, events := existing.events + [Event(now, SafePreExecutionResume, None)]);
        Succeed(os, me, existing);
        return Created(existing);
      }
      PersistRun(existing);
      return Duplicate(existing);
    }

    // Takes the workflow over from a dead owner: drops its lock, claims, and stores the new owner.
    method Succeed(os: Os, me: Owner, run: Run)
      requires Valid()
      modifies this
      ensures Valid()
      ensures journal == old(journal) +
              (Release(old(Contents()), run.workflowId) + Claim(run.workflowId, me) + [PutRun(run)])
    {
      if run.workflowId in locks {
        Unlink(run.workflowId);
      }
      var error := ClaimRun(os, me, run.workflowId);
      PersistRun(run);
    }

    method StartFresh(os: Os, me: Owner, input: BeginInput, now: int) returns (outcome: BeginOutcome)
      requires Valid()
      modifies this
      ensures Valid()
      ensures journal == old(journal) + FreshPlan(old(Contents()), os, me, input, now).0
      ensures outcome == FreshPlan(old(Contents()), os, me, input, now).1
    {
      var run := Run(input.workflowId, input.idempotencyKey, input.conversationId, Running, 1, now, now, None, [],
                     [Event(now, RunStarted, None)], me);
      var error := ClaimRun(os, me, input.workflowId);
      if error.Some? {
        return error.value;
      }
      PersistRun(run);
      PersistIndex(input.idempotencyKey, input.workflowId);
      return Created(run);
    }

    method RecordDurableStep(input: StepInput, now: int) returns (found: bool)
      requires Valid()
      modifies this
      ensures Valid() && found == (input.workflowId in old(runs))
      ensures journal == old(journal) + RecordPlan(old(Contents()), input, now)
    {
      found := input.workflowId in runs;
      if !found {
        return;
      }
      var run := runs[input.workflowId];
      var i := 0;
      while i < |run.steps| && !StepMatches(run.steps[i], input)
        invariant i <= |run.steps|
        invariant forall j | 0 <= j < i :: !StepMatches(run.steps[j], input)
      {
        i := i + 1;
      }
      assert i == FindStep(run.steps, input);
      var kind: EventKind;
      if i < |run.steps| {
        run := run.(steps := run.steps[i := run.steps[i].(status := input.status, updatedAt := now)]);
        kind := StepDuplicateOrUpdate;
      } else {
        run := run.(steps := run.steps + [StepRecord(input.stepId, input.status, input.key, now, now)]);
        kind := StepRecorded;
      }
      run := run.(currentStep := Some(input.stepId), updatedAt := now,
                  events := run.events + [Event(now, kind, Some(input.stepId))]);
      PersistRun(run);
    }

    method MarkDurableRunStatus(me: Owner, id: string, status: RunStatus, now: int) returns (found: bool)
      requires Valid()
      modifies this
      ensures Valid() && found == (id in old(runs))
      ensures journal == old(journal) + MarkPlan(old(Contents()), me, id, status, now)
    {
      found := id in runs;
      if !found {
        return;
      }
      var run := runs[id];
      run := run.(status := status, updatedAt := now, events := run.events + [Event(now, RunMarked(status), None)]);
      PersistRun(run);
      if status != Running && run.owner.token == me.token && id in locks {
        Unlink(id);
      }
    }

    method ReconcileInterruptedRuns(os: Os, me: Owner, order: seq<string>, now: int) returns (interrupted: seq<Run>)
      requires Valid()
      modifies this
      ensures Valid()
      ensures journal == old(journal) + ReconcilePlan(old(Contents()), os, me, order, now)
      ensures journal == old(journal) + Puts(interrupted)
    {
      interrupted := [];
      ghost var plan := ReconcilePlan(Contents(), os, me, order, now);
      var n := 0;
      while n < |order|
        invariant n <= |order| && Valid()
        invariant old(journal) + plan == journal + ReconcilePlan(Contents(), os, me, order[n..], now)
        invariant journal == old(journal) + Puts(interrupted)
      {
        hide ReviewPlan;
        ghost var written, ws := journal, ReviewPlan(Contents(), os, me, order[n], now);
        ghost var rest := ReconcilePlan(ApplyAll(Contents(), ws), os, me, order[n + 1..], now);
        PlanUnfolds(Contents(), os, me, order, n, now);
        var reviewed := ReviewOne(os, me, order[n], now);
        Regrouped(written, ws, rest);
        if reviewed.Some? {
          assert Puts(interrupted + [reviewed.value]) == Puts(interrupted) + [PutRun(reviewed.value)];
          Regrouped(old(journal), Puts(interrupted), [PutRun(reviewed.value)]);
          interrupted := interrupted + [reviewed.value];
        }
        n := n + 1;
      }
    }

    ghost function Puts(rs: seq<Run>): seq<Write> {
      seq(|rs|, k requires 0 <= k < |rs| => PutRun(rs[k]))
    }

    method ReviewOne(os: Os, me: Owner, id: string, now: int) returns (reviewed: Option<Run>)
      requires Valid()
      modifies this
      ensures Valid()
      ensures journal == old(journal) + ReviewPlan(old(Contents()), os, me, id, now)
      ensures Contents() == ApplyAll(old(Contents()), ReviewPlan(old(Contents()), os, me, id, now))
      ensures ReviewPlan(old(Contents()), os, me, id, now) == if reviewed.Some? then [PutRun(reviewed.value)] else []
    {
      if id !in runs || runs[id].status != Running || OwnerAlive(os, me, runs[id].owner) || CanResumeRun(runs[id]) {
        return None;
      }
      var run := runs[id];
      run := run.(status := Interrupted, updatedAt := now,
                  events := run.events + [Event(now, RecoveryRequiresReview, None)]);
      ghost var before := Contents();
      assert [PutRun(run)][1..] == [];
      assert ApplyAll(Apply(before, PutRun(run)), []) == ApplyAll(before, [PutRun(run)]);
      PersistRun(run);
      reviewed := Some(run);
    }
  }
}
