/** Runs that are over: what ends one, and that no run is granted again unless a mark sets it running. */
module LedgerEndings {
  import opened LedgerModel
  import opened LedgerProtocol
  import opened LedgerSafety

  // The run is stored and not running: completed, failed, cancelled or interrupted.
  ghost predicate Over(d: Disk, id: string) {
    id in d.runs && d.runs[id].status != Running
  }

  // The action may set the run running again.
  ghost predicate Reopens(a: Action, id: string) {
    (a.Call? || a.Crash?) && a.op == Mark(id, Running)
  }

  // ----- writes -----

  ghost predicate LeavesOver(ws: seq<Write>, id: string) {
    forall w | w in ws :: w.PutRun? && w.run.workflowId == id ==> w.run.status != Running
  }

  lemma {:induction false} StaysOver(d: Disk, ws: seq<Write>, id: string)
    requires Over(d, id) && LeavesOver(ws, id)
    ensures Over(ApplyAll(d, ws), id)
    decreases |ws|
  {
    if ws != [] {
      assert ws[0] in ws && forall w | w in ws[1..] :: w in ws;
      StaysOver(Apply(d, ws[0]), ws[1..], id);
    }
  }

  lemma {:induction false} ReviewsLeaveOver(d: Disk, os: Os, me: Owner, order: seq<string>, now: int, id: string)
    ensures LeavesOver(ReconcilePlan(d, os, me, order, now), id)
    decreases |order|
  {
    if order != [] {
      ReviewsLeaveOver(ApplyAll(d, ReviewPlan(d, os, me, order[0], now)), os, me, order[1..], now, id);
    }
  }

  lemma BeginLeavesOver(w: World, me: Owner, input: BeginInput, now: int, id: string)
    requires Inv(w) && Over(w.disk, id)
    ensures LeavesOver(BeginPlan(w.disk, w.os, me, input, now).0, id)
    ensures BeginPlan(w.disk, w.os, me, input, now).1.Created? ==> input.workflowId != id
  {
    LookupStaysWithInput(w, input);
  }

  lemma PlanLeavesOver(w: World, me: Owner, op: Op, now: int, id: string)
    requires Inv(w) && Over(w.disk, id) && op != Mark(id, Running)
    ensures LeavesOver(Plan(w, me, op, now), id)
  {
    match op
    case Begin(input) => BeginLeavesOver(w, me, input, now, id);
    case Record(step) =>
    case Mark(x, status) =>
    case Reconcile(order) => ReviewsLeaveOver(w.disk, w.os, me, order, now, id);
  }

  // ----- runs of the ledger -----

  lemma OverStep(w: World, a: Action, id: string)
    requires Inv(w) && Enabled(w, a) && Over(w.disk, id) && !Reopens(a, id)
    ensures Over(Next(w, a).disk, id) && w.grants <= Next(w, a).grants
    ensures forall g | g in Next(w, a).grants[|w.grants|..] :: g.workflowId != id
  {
    hide BeginPlan, Inv;
    if a.Call? || a.Crash? {
      var ws := Plan(w, a.me, a.op, a.now);
      PlanLeavesOver(w, a.me, a.op, a.now, id);
      StaysOver(w.disk, if a.Call? then ws else ws[..a.k], id);
    }
    if a.Call? && Grants(w, a.me, a.op, a.now) {
      BeginLeavesOver(w, a.me, a.op.input, a.now, id);
      assert Next(w, a).grants[|w.grants|..] == [Grant(a.op.input.workflowId, a.me)];
    }
  }

  lemma {:induction false} OverFrom(w: World, more: seq<Action>, id: string)
    requires Inv(w) && Legal(w, more) && Over(w.disk, id) && forall a | a in more :: !Reopens(a, id)
    ensures Over(After(w, more).disk, id) && w.grants <= After(w, more).grants
    ensures forall g | g in After(w, more).grants[|w.grants|..] :: g.workflowId != id
    decreases |more|
  {
    if more != [] {
      var w1 := Next(w, more[0]);
      assert more[0] in more && forall a | a in more[1..] :: a in more;
      StepKeepsInv(w, more[0]);
      OverStep(w, more[0], id);
      OverFrom(w1, more[1..], id);
      GrantsConcat(w.grants, w1.grants, After(w1, more[1..]).grants, id);
    }
  }

  // A run that is over, however it ended and whatever its steps, is granted to nobody until a mark sets it running: not
  // by a start, not after its owner has died, not by reconciliation.
  lemma OverIsNotGranted(w: World, acts: seq<Action>, more: seq<Action>, id: string)
    requires Initial(w) && Legal(w, acts) && Legal(After(w, acts), more)
    requires Over(After(w, acts).disk, id) && forall a | a in more :: !Reopens(a, id)
    ensures Over(After(After(w, acts), more).disk, id)
    ensures var early, late := After(w, acts).grants, After(After(w, acts), more).grants;
            early <= late && forall g | g in late[|early|..] :: g.workflowId != id
  {
    InvAfter(w, acts);
    OverFrom(After(w, acts), more, id);
  }
}
