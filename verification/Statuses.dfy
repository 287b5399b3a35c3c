/** What a terminal status of `write_jobs` says about the execution behind it. */
module Statuses {
  import opened Wrappers
  import opened Ops
  import opened Ledger
  import opened Protocol
  import opened ProtocolInvariant
  import opened ProtocolTheorems
  import opened Superseding
  import Reconcile

  /** Done: the school answered and the job was closed. Failed: closed without an
      answer. Cancelled: never executed, or its execution crashed. */
  predicate StatusMeans(status: Status, log: seq<Event>) {
    match status
    case Queued => true
    case Running => true
    case Done => EndsWith(log, Closed) && FindAnswer(log).Some?
    case Failed => EndsWith(log, Closed) && FindAnswer(log).None?
    case Cancelled => log == [] || EndsWith(log, Crashed)
    case SessionSuperseded => true
  }

  /** The status an execution about to close will ask for. */
  predicate Owed(log: seq<Event>, status: Status) {
    status == if FindAnswer(log).Some? then Done else Failed
  }

  ghost predicate Told(s: State) {
    && |s.logs| == |s.jobs|
    && (forall j :: 0 <= j < |s.jobs| ==> StatusMeans(s.jobs[j].status, s.logs[j]))
    && (s.worker.Working? && s.worker.step.Close? ==>
          s.worker.t.job < |s.logs| && Owed(s.logs[s.worker.t.job], s.worker.step.status))
  }

  /** An active job that is not being executed was never claimed, or crashed. */
  lemma IdleActive(s: State, j: nat)
    requires Inv(s) && j < |s.jobs| && Active(s.jobs[j].status) && !Busy(s, j)
    ensures j < |s.logs| && (s.logs[j] == [] || EndsWith(s.logs[j], Crashed))
  {
    assert JobOk(s.jobs[j], s.logs[j], Busy(s, j));
  }

  lemma ForeignKeepsTold(s: State, a: Action)
    requires Inv(s) && Told(s) && Foreign(a)
    ensures Told(Apply(s, a))
  {
    hide Inv, StatusMeans, Owed;
    ForeignStatuses(s, a);
    forall log: seq<Event> ensures StatusMeans(SessionSuperseded, log) && StatusMeans(Queued, log) {
      QuietStatuses(log);
    }
    hide Apply;
  }

  lemma QuietStatuses(log: seq<Event>)
    ensures StatusMeans(SessionSuperseded, log) && StatusMeans(Queued, log) && StatusMeans(Running, log)
  {
  }

  lemma ForeignStatuses(s: State, a: Action)
    requires Foreign(a) && |s.logs| == |s.jobs|
    ensures var t := Apply(s, a);
      && t.worker == s.worker && |t.jobs| == |t.logs| && |s.jobs| <= |t.jobs|
      && (forall j ::
            0 <= j < |s.jobs| ==>
              t.logs[j] == s.logs[j] && (t.jobs[j].status == s.jobs[j].status || t.jobs[j].status.SessionSuperseded?))
      && (forall j :: |s.jobs| <= j < |t.jobs| ==> t.jobs[j].status.Queued?)
  {
  }

  /** The worker's steps while the job it executes is running or superseded: any
      event may be added to that job's history. */
  ghost predicate OnlyBusyLog(s: State, t: State) {
    && t.jobs == s.jobs && |t.logs| == |s.logs|
    && forall j :: 0 <= j < |s.jobs| && j < |s.logs| && !Busy(s, j) ==> t.logs[j] == s.logs[j]
  }

  lemma BusyLogKeepsTold(s: State, t: State)
    requires Inv(s) && Honest(s) && Told(s) && OnlyBusyLog(s, t)
    requires t.worker.Working? && t.worker.step.Close? ==>
      t.worker.t.job < |t.logs| && Owed(t.logs[t.worker.t.job], t.worker.step.status)
    ensures Told(t)
  {
    hide Inv, Owed, StatusMeans;
    forall j | 0 <= j < |t.jobs| ensures StatusMeans(t.jobs[j].status, t.logs[j]) {
      if Busy(s, j) {
        QuietStatuses(t.logs[j]);
      }
    }
  }

  /** Steps of an execution that neither close nor end a job. */
  predicate Within(a: Action) {
    a.WorkerInsertAudits? || a.WorkerGet? || a.WorkerPost? || a.WorkerAskSlt? || a.WorkerCrash?
  }

  lemma WithinSteps(s: State, a: Action)
    requires Within(a)
    ensures OnlyBusyLog(s, Apply(s, a))
    ensures Apply(s, a).worker.Working? && Apply(s, a).worker.step.Close? ==> Apply(s, a) == s
  {
  }

  /** Only the working job's history grew, and an execution about to close will
      write the status its history calls for. */
  ghost predicate Decides(s: State, t: State) {
    && OnlyBusyLog(s, t)
    && (t.worker.Working? && t.worker.step.Close? ==>
          t.worker.t.job < |t.logs| && Owed(t.logs[t.worker.t.job], t.worker.step.status))
  }

  /** No answer can be there before the post was answered. */
  lemma NoAnswerYet(s: State)
    requires Inv(s) && s.worker.Working? && Rank(s.logs[s.worker.t.job][|s.logs[s.worker.t.job]| - 1]) < ANSWER
    ensures FindAnswer(s.logs[s.worker.t.job]).None?
  {
    hide Inv, JobOk, AuditsOk, AtStep;
    WorkingFacts(s);
    NoneAbove(s.logs[s.worker.t.job], ANSWER);
  }

  lemma JarDecides(s: State, alive: bool)
    requires Inv(s) && Told(s)
    ensures Decides(s, JarAnswer(s, alive))
  {
    hide Inv, JobOk, LogOk, AuditsOk, AllRows, StatusMeans;
    if s.worker.Working? {
      WorkingFacts(s);
      if s.worker.step.LoadJar? {
        NoAnswerYet(s);
      }
    }
  }

  lemma CheckDecides(s: State)
    requires Inv(s) && Told(s)
    ensures Decides(s, CheckStatus(s))
  {
    hide Inv, JobOk, LogOk, AuditsOk, AllRows, StatusMeans;
    if s.worker.Working? {
      WorkingFacts(s);
      if s.worker.step.CheckBeforeForm? || s.worker.step.CheckBeforePost? {
        NoAnswerYet(s);
      }
    }
  }

  lemma FormDecides(s: State, reply: Option<Page>)
    requires Inv(s) && Told(s)
    ensures Decides(s, GotForm(s, reply))
  {
    hide Inv, JobOk, LogOk, AuditsOk, AllRows, StatusMeans, PayloadFor;
    if s.worker.Working? && s.worker.step.AwaitForm? {
      WorkingFacts(s);
      NoAnswerYet(s);
    }
  }

  lemma AnswerDecides(s: State, reply: Option<Reply>)
    requires Inv(s) && Told(s)
    ensures Decides(s, GotAnswer(s, reply))
  {
    hide Inv, JobOk, LogOk, AuditsOk, AllRows, StatusMeans, FirstUpdates, Reconcile.AnyUnknown;
    if s.worker.Working? && s.worker.step.AwaitPost? {
      WorkingFacts(s);
      NoAnswerYet(s);
      if reply.Some? && reply.value.Classified? {
        FindSnoc(s.logs[s.worker.t.job], Answer(reply.value.verdicts));
      }
    }
  }

  lemma SltDecides(s: State, items: Option<seq<Reconcile.Item>>)
    requires Inv(s) && Told(s)
    ensures Decides(s, GotSlt(s, items))
  {
    hide Inv, JobOk, LogOk, AuditsOk, StatusMeans, Reconcile.Reconciled;
    if s.worker.Working? && s.worker.step.AwaitSlt? {
      WorkingFacts(s);
      if items.Some? {
        FindSnoc(s.logs[s.worker.t.job], SltRead(items.value));
      }
    }
  }

  // ---------- the steps that end jobs ----------

  lemma CloseKeepsTold(s: State)
    requires Inv(s) && Honest(s) && Told(s)
    ensures Told(CloseJob(s))
  {
    hide Inv, JobOk, LogOk, AuditsOk, ApplyOutcomes;
    if s.worker.Working? && s.worker.step.Close? {
      WorkingFacts(s);
      FindSnoc(s.logs[s.worker.t.job], Closed);
    }
  }

  lemma FailKeepsTold(s: State)
    requires Inv(s) && Honest(s) && Told(s)
    ensures Told(FailJob(s))
  {
    hide Inv, JobOk, LogOk, AuditsOk;
    if s.worker.Working? && s.worker.step.SinkDown? {
      WorkingFacts(s);
      NoAnswerYet(s);
      FindSnoc(s.logs[s.worker.t.job], Closed);
    }
  }

  lemma ClaimKeepsTold(s: State)
    requires Inv(s) && Told(s)
    ensures Told(TryClaim(s))
  {
  }

  lemma CancelKeepsTold(s: State)
    requires Inv(s) && Told(s)
    ensures Told(CancelTicket(s))
  {
    hide Inv;
    if s.worker.Stale? && s.worker.t.job < |s.jobs| && Active(s.jobs[s.worker.t.job].status) {
      IdleActive(s, s.worker.t.job);
    }
  }

  lemma SweepKeepsTold(s: State)
    requires Inv(s) && Told(s)
    ensures Told(Sweep(s))
  {
    hide Inv, StatusMeans;
    if s.worker.Sweeping? {
      forall j | 0 <= j < |s.jobs| ensures StatusMeans(Sweep(s).jobs[j].status, s.logs[j]) {
        if Active(s.jobs[j].status) {
          IdleActive(s, j);
        }
        CancelledMeans(s.logs[j]);
      }
    }
  }

  lemma CancelledMeans(log: seq<Event>)
    ensures StatusMeans(Cancelled, log) <==> log == [] || EndsWith(log, Crashed)
  {
  }

  lemma ReadClockKeepsTold(s: State)
    requires Inv(s) && Told(s)
    ensures Told(ReadClock(s))
  {
  }

  /** The worker's remaining steps move it between idle, popped and swept. */
  lemma MovesKeepTold(s: State, a: Action)
    requires Told(s) && (a.PopTicket? || a.WorkerReadUnclaimed? || a.WorkerSweepClock?)
    ensures Told(Apply(s, a))
  {
    hide StatusMeans, Owed;
  }

  lemma DecidingKeepsTold(s: State, a: Action)
    requires Inv(s) && Honest(s) && Told(s)
    requires a.WorkerJar? || a.WorkerCheckStatus? || a.WorkerForm? || a.WorkerAnswer? || a.WorkerSlt?
    ensures Told(Apply(s, a))
  {
    hide Inv, Honest, Told, OnlyBusyLog, Owed;
    match a {
      case WorkerJar(alive) => JarDecides(s, alive);
      case WorkerCheckStatus => CheckDecides(s);
      case WorkerForm(form) => FormDecides(s, form);
      case WorkerAnswer(reply) => AnswerDecides(s, reply);
      case WorkerSlt(items) => SltDecides(s, items);
    }
    BusyLogKeepsTold(s, Apply(s, a));
  }

  lemma StepKeepsTold(s: State, a: Action)
    requires Inv(s) && Honest(s) && Told(s)
    ensures Told(Apply(s, a))
  {
    hide Inv, Honest, Told;
    match a
    case WorkerClose => CloseKeepsTold(s);
    case WorkerFail => FailKeepsTold(s);
    case WorkerClaim => ClaimKeepsTold(s);
    case WorkerCancel => CancelKeepsTold(s);
    case WorkerSweep => SweepKeepsTold(s);
    case WorkerReadClock => ReadClockKeepsTold(s);
    case _ =>
      if a.WorkerJar? || a.WorkerCheckStatus? || a.WorkerForm? || a.WorkerAnswer? || a.WorkerSlt? {
        DecidingKeepsTold(s, a);
      } else {
        RestKeepsTold(s, a);
      }
  }

  lemma RestKeepsTold(s: State, a: Action)
    requires Inv(s) && Honest(s) && Told(s)
    requires Foreign(a) || Within(a) || a.PopTicket? || a.WorkerReadUnclaimed? || a.WorkerSweepClock?
    ensures Told(Apply(s, a))
  {
    hide Apply, Inv, Honest;
    if Foreign(a) {
      ForeignKeepsTold(s, a);
    } else if Within(a) {
      WithinSteps(s, a);
      BusyLogKeepsTold(s, Apply(s, a));
    } else {
      MovesKeepTold(s, a);
    }
  }

  lemma {:induction false} RunIsTold(now: int, dwell: nat, actions: seq<Action>)
    ensures Told(Run(Initial(now, dwell), actions))
  {
    if actions != [] {
      hide Apply, Inv, Honest, Told;
      var front := actions[..|actions| - 1];
      RunIsTold(now, dwell, front);
      EveryRunOk(now, dwell, front);
      RunIsHonest(now, dwell, front);
      StepKeepsTold(Run(Initial(now, dwell), front), actions[|actions| - 1]);
    }
  }

  /** In every reachable state a job's terminal status says what happened: done
      jobs were answered and closed, failed ones closed without an answer,
      cancelled ones were never executed or crashed; and a closed job is done,
      failed or superseded. */
  lemma StatusTellsWhatHappened(s: State, j: nat)
    requires Reachable(s) && j < |s.jobs|
    ensures StatusMeans(s.jobs[j].status, LogOf(s, j))
    ensures EndsWith(LogOf(s, j), Closed) ==>
      s.jobs[j].status == SessionSuperseded || Owed(LogOf(s, j), s.jobs[j].status)
  {
    hide Apply, Run;
    var now: int, dwell: nat, actions: seq<Action> :| s == Run(Initial(now, dwell), actions);
    RunIsTold(now, dwell, actions);
    ReachableOk(s);
    assert JobOk(s.jobs[j], s.logs[j], Busy(s, j));
  }
}
