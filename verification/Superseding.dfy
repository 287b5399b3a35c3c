/** A row recorded as superseded means what it says: a login ended the job, and
    nothing was posted for it. */
module Superseding {
  import opened Wrappers
  import opened Ops
  import opened Ledger
  import opened Protocol
  import opened ProtocolInvariant
  import opened ProtocolTheorems
  import Reconcile

  predicate SaysSuperseded(updates: seq<Update>) {
    exists k :: 0 <= k < |updates| && updates[k].outcome.Superseded?
  }

  /** Only a login ends a job being executed, and only jobs a login ended get
      superseded rows. */
  ghost predicate Honest(s: State) {
    && (s.worker.Working? ==>
          s.worker.t.job < |s.jobs| && s.jobs[s.worker.t.job].status in {Running, SessionSuperseded})
    && (s.worker.Working? && s.worker.step.Close? && SaysSuperseded(s.worker.step.updates) ==>
          s.jobs[s.worker.t.job].status.SessionSuperseded?)
    && (forall i :: 0 <= i < |s.audits| && s.audits[i].outcome.Superseded? ==>
          s.audits[i].job < |s.jobs| && s.jobs[s.audits[i].job].status.SessionSuperseded?)
  }

  lemma ForeignKeepsRows(s: State, a: Action)
    requires Foreign(a)
    ensures Apply(s, a).worker == s.worker && Apply(s, a).audits == s.audits
    ensures forall j :: 0 <= j < |s.jobs| && s.jobs[j].status in {Running, SessionSuperseded} ==>
      j < |Apply(s, a).jobs| && Apply(s, a).jobs[j].status in {Running, SessionSuperseded}
  {
  }

  lemma ForeignKeepsHonest(s: State, a: Action)
    requires Inv(s) && Honest(s) && Foreign(a)
    ensures Honest(Apply(s, a))
  {
    StepEvolves(s, a);
    hide Apply, Inv, SaysSuperseded;
    ForeignKeepsRows(s, a);
  }

  /** A worker step that neither closes nor writes audit rows. */
  predicate Quiet(a: Action) {
    !Foreign(a) && !a.WorkerInsertAudits? && !a.WorkerClose? && !a.WorkerJar? && !a.WorkerCheckStatus? && !a.WorkerForm?
    && !a.WorkerAnswer? && !a.WorkerSlt?
  }

  lemma QuietStep(s: State, a: Action)
    requires Quiet(a)
    ensures Apply(s, a).audits == s.audits
    ensures var w := Apply(s, a).worker;
      w.Working? ==>
        w == s.worker
          || (w.step.InsertAudits? && w.t.job < |Apply(s, a).jobs| && Apply(s, a).jobs[w.t.job].status.Running?)
        || (s.worker.Working? && w.t == s.worker.t && !w.step.Close? && Apply(s, a).jobs == s.jobs)
    ensures s.worker.Working? && Apply(s, a).worker == s.worker ==> Apply(s, a).jobs == s.jobs
  {
  }

  lemma QuietKeepsHonest(s: State, a: Action)
    requires Inv(s) && Honest(s) && Quiet(a)
    ensures Honest(Apply(s, a))
  {
    StepEvolves(s, a);
    hide Apply, Inv, SaysSuperseded;
    QuietStep(s, a);
  }

  lemma AllRowsSay(first: nat, n: nat, outcome: Outcome)
    ensures SaysSuperseded(AllRows(first, n, outcome)) ==> outcome.Superseded?
  {
  }

  lemma AnswersSayNothing(first: nat, ops: seq<Op>, v: Verdicts, retried: bool)
    ensures !SaysSuperseded(FirstUpdates(first, ops, v, retried))
  {
  }

  lemma WeighedSayNothing(log: seq<Event>, first: nat, updates: seq<Update>, ops: seq<Op>)
    requires Weighing(log, first, updates, ops)
    ensures !SaysSuperseded(updates)
  {
  }

  lemma SettledSayNothing(updates: seq<Update>, ops: seq<Op>, items: seq<Reconcile.Item>)
    requires |updates| == |ops| && !SaysSuperseded(updates)
    ensures !SaysSuperseded(Reconcile.Reconciled(updates, ops, items))
  {
  }

  lemma JarKeepsHonest(s: State, alive: bool)
    requires Inv(s) && Honest(s)
    ensures Honest(JarAnswer(s, alive))
  {
    hide Inv, SaysSuperseded, Weighing, AllRows;
    if s.worker.Working? {
      WorkingFacts(s);
      AllRowsSay(if s.worker.step.LoadJar? then s.worker.step.first else 0, |s.worker.ops|, StageExpired);
      if s.worker.step.ReloadJar? {
        WeighedSayNothing(s.logs[s.worker.t.job], s.worker.step.first, s.worker.step.updates, s.worker.ops);
      }
    }
  }

  lemma CheckKeepsHonest(s: State)
    requires Inv(s) && Honest(s)
    ensures Honest(CheckStatus(s))
  {
  }

  lemma FormKeepsHonest(s: State, reply: Option<Page>)
    requires Honest(s)
    ensures Honest(GotForm(s, reply))
  {
    hide SaysSuperseded, AllRows, PayloadFor;
    if s.worker.Working? && s.worker.step.AwaitForm? {
      AllRowsSay(s.worker.step.first, |s.worker.ops|, TransportFailed);
      AllRowsSay(s.worker.step.first, |s.worker.ops|, StageExpired);
      AllRowsSay(s.worker.step.first, |s.worker.ops|, ParseFailed);
    }
  }

  lemma AnswerKeepsHonest(s: State, reply: Option<Reply>)
    requires Honest(s)
    ensures Honest(GotAnswer(s, reply))
  {
    hide SaysSuperseded, AllRows, FirstUpdates, Reconcile.AnyUnknown;
    if s.worker.Working? && s.worker.step.AwaitPost? {
      AllRowsSay(s.worker.step.first, |s.worker.ops|, TransportFailed);
      AllRowsSay(s.worker.step.first, |s.worker.ops|, StageExpired);
      if reply.Some? && reply.value.Classified? {
        AnswersSayNothing(s.worker.step.first, s.worker.ops, reply.value.verdicts, s.worker.step.tried > 1);
      }
    }
  }

  lemma SltKeepsHonest(s: State, items: Option<seq<Reconcile.Item>>)
    requires Inv(s) && Honest(s)
    ensures Honest(GotSlt(s, items))
  {
    hide Inv, SaysSuperseded, Weighing, Reconcile.Reconciled;
    if s.worker.Working? && s.worker.step.AwaitSlt? && |s.worker.step.updates| == |s.worker.ops| {
      WorkingFacts(s);
      WeighedSayNothing(s.logs[s.worker.t.job], s.worker.step.first, s.worker.step.updates, s.worker.ops);
      if items.Some? {
        SettledSayNothing(s.worker.step.updates, s.worker.ops, items.value);
      }
    }
  }

  lemma InsertKeepsHonest(s: State, ok: bool)
    requires Honest(s)
    ensures Honest(DoInsertAudits(s, ok))
  {
    hide SaysSuperseded;
  }

  lemma CloseKeepsHonest(s: State)
    requires Inv(s) && Honest(s)
    ensures Honest(CloseJob(s))
  {
    hide Inv, JobOk, LogOk, AtStep, Means;
    if s.worker.Working? && s.worker.step.Close? {
      var k := s.worker.step;
      WorkingFacts(s);
      ClosingRows(s);
    }
  }

  /** The rows a close writes say superseded only where an update does. */
  lemma ClosingRows(s: State)
    requires Inv(s) && s.worker.Working? && s.worker.step.Close?
    ensures var after := ApplyOutcomes(s.audits, s.worker.step.updates);
      && |after| == |s.audits|
      && (forall i :: 0 <= i < |after| ==> after[i].job == s.audits[i].job)
      && (forall i :: 0 <= i < |after| && after[i].outcome.Superseded? ==>
            s.audits[i].outcome.Superseded?
              || (after[i].job == s.worker.t.job && SaysSuperseded(s.worker.step.updates)))
  {
    hide Inv, JobOk, LogOk, Means;
    WorkingFacts(s);
    var k := s.worker.step;
    var log := s.logs[s.worker.t.job];
    assert RowsOf(s.audits, s.worker.t.job, s.worker.ops, s.jobs[s.worker.t.job].payloadHash, k.first);
    ApplyOutcomesRows(s.audits, k.updates, k.first);
    var after := ApplyOutcomes(s.audits, k.updates);
    forall i | 0 <= i < |after|
      ensures after[i].job == s.audits[i].job
      ensures after[i].outcome.Superseded? ==>
        s.audits[i].outcome.Superseded? || (after[i].job == s.worker.t.job && SaysSuperseded(k.updates))
    {
      if k.first <= i < k.first + |k.updates| {
        assert after[k.first + (i - k.first)] ==
          s.audits[i].(outcome := k.updates[i - k.first].outcome, schoolMsg := k.updates[i - k.first].schoolMsg);
      }
    }
  }

  lemma StepKeepsHonest(s: State, a: Action)
    requires Inv(s) && Honest(s)
    ensures Honest(Apply(s, a))
  {
    hide Inv, Honest, DoInsertAudits, CloseJob, JarAnswer, CheckStatus, GotForm, GotAnswer, GotSlt;
    match a
    case WorkerInsertAudits(ok) => InsertKeepsHonest(s, ok);
    case WorkerClose => CloseKeepsHonest(s);
    case WorkerJar(alive) => JarKeepsHonest(s, alive);
    case WorkerCheckStatus => CheckKeepsHonest(s);
    case WorkerForm(form) => FormKeepsHonest(s, form);
    case WorkerAnswer(reply) => AnswerKeepsHonest(s, reply);
    case WorkerSlt(items) => SltKeepsHonest(s, items);
    case _ =>
      if Foreign(a) {
        ForeignKeepsHonest(s, a);
      } else {
        QuietKeepsHonest(s, a);
      }
  }

  lemma {:induction false} RunIsHonest(now: int, dwell: nat, actions: seq<Action>)
    ensures Honest(Run(Initial(now, dwell), actions))
  {
    if actions != [] {
      hide Apply, Inv, Honest;
      RunIsHonest(now, dwell, actions[..|actions| - 1]);
      EveryRunOk(now, dwell, actions[..|actions| - 1]);
      StepKeepsHonest(Run(Initial(now, dwell), actions[..|actions| - 1]), actions[|actions| - 1]);
    }
  }

  /** A row recorded as superseded belongs to a job that a login ended, and
      nothing was posted for that job. */
  lemma SupersededRowsAreHonest(s: State, i: nat)
    requires Reachable(s) && i < |s.audits| && s.audits[i].outcome.Superseded?
    ensures s.audits[i].job < |s.jobs| && s.jobs[s.audits[i].job].status.SessionSuperseded?
    ensures Num(LogOf(s, s.audits[i].job), POST) == 0
  {
    hide Apply, Run, RowMeans;
    var now: int, dwell: nat, actions: seq<Action> :| s == Run(Initial(now, dwell), actions);
    RunIsHonest(now, dwell, actions);
    ReachableOk(s);
    var j := s.audits[i].job;
    var log, ops := s.logs[j], s.jobs[j].ops;
    assert AuditsOk(s.audits, j, log, ops, s.jobs[j].payloadHash);
    var first := log[1].first;
    assert first <= i < first + |ops|;
    var row := s.audits[first + (i - first)];
    assert RowMeans(log, ops[i - first], row.outcome, row.schoolMsg);
    SupersededMeansNoPost(log, ops[i - first], row.schoolMsg);
  }

  lemma SupersededMeansNoPost(log: seq<Event>, op: Op, msg: Option<string>)
    requires RowMeans(log, op, Superseded, msg)
    ensures Num(log, POST) == 0
  {
  }
}
