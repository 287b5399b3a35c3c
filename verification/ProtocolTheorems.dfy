/** What the invariant means for a reader of the ledger: every statement here is
    about all runs of all actors, in every interleaving, from an empty site. */
module ProtocolTheorems {
  import opened Wrappers
  import opened Ops
  import opened Segments
  import opened Ledger
  import opened Protocol
  import opened ProtocolInvariant
  import Reconcile
  import Payload

  /** The states the site can be in. */
  ghost predicate Reachable(s: State) {
    exists now: int, dwell: nat, actions: seq<Action> :: s == Run(Initial(now, dwell), actions)
  }

  lemma ReachableOk(s: State)
    requires Reachable(s)
    ensures Inv(s)
  {
    var now: int, dwell: nat, actions: seq<Action> :| s == Run(Initial(now, dwell), actions);
    EveryRunOk(now, dwell, actions);
  }

  /** What happened to job `j` so far. */
  function LogOf(s: State, j: nat): seq<Event> {
    if j < |s.logs| then s.logs[j] else []
  }

  predicate EndsWith(log: seq<Event>, e: Event) {
    log != [] && log[|log| - 1] == e
  }

  /** The execution inserted its audit rows and closed. */
  predicate ClosedWithRows(log: seq<Event>) {
    Inserted(log) && EndsWith(log, Closed)
  }

  // ---------- at most once ----------

  /** A job is claimed at most once, gets at most one set of audit rows, at most
      three requests for the form and one reading, at most three posts and at most one slt_result query,
      however often its ticket was delivered and whatever crashed. */
  lemma AtMostOnce(s: State, j: nat)
    requires Reachable(s) && j < |s.jobs|
    ensures Num(LogOf(s, j), CLAIM) <= 1 && Num(LogOf(s, j), INSERT) <= 1
    ensures Num(LogOf(s, j), GET) <= 3 && Num(LogOf(s, j), FORM) <= 1 && Num(LogOf(s, j), POST) <= 3
      && Num(LogOf(s, j), ASK) <= 1
    ensures Num(LogOf(s, j), ASK) == 1 ==> Num(LogOf(s, j), POST) >= 2
  {
    ReachableOk(s);
    var log := LogOf(s, j);
    assert JobOk(s.jobs[j], log, Busy(s, j));
    assert Num(log, CLAIM) <= Limit(CLAIM) && Num(log, INSERT) <= Limit(INSERT);
    assert Num(log, GET) <= Limit(GET) && Num(log, FORM) <= Limit(FORM) && Num(log, POST) <= Limit(POST)
      && Num(log, ASK) <= Limit(ASK);
  }

  /** Once a job's execution is over, by closing or by crashing, nothing is ever
      added to its history: no second claim, no further contact. */
  lemma OverIsOver(s: State, a: Action, j: nat)
    requires Reachable(s) && j < |s.jobs|
    requires IsOver(LogOf(s, j))
    ensures LogOf(Apply(s, a), j) == LogOf(s, j)
  {
    ReachableOk(s);
    assert JobOk(s.jobs[j], s.logs[j], Busy(s, j));
    OtherLogsStay(s, a, j);
  }

  lemma OtherLogsStay(s: State, a: Action, j: nat)
    requires j < |s.jobs| == |s.logs| && !s.jobs[j].status.Queued? && !Busy(s, j)
    ensures LogOf(Apply(s, a), j) == s.logs[j]
  {
  }

  // ---------- fail-closed audit ----------

  /** An action that contacts the school. */
  predicate Contacts(a: Action) {
    a.WorkerGet? || a.WorkerPost? || a.WorkerAskSlt?
  }

  /** When a call to the school is sent for a job, the table holds one pending
      row per op of that job, in op order, and no other row for it. */
  lemma SchoolCallIsAudited(s: State, a: Action)
    requires Reachable(s) && Contacts(a) && Apply(s, a).logs != s.logs
    ensures s.worker.Working? && s.worker.t.job < |s.jobs| && Inserted(LogOf(s, s.worker.t.job))
    ensures var j := s.worker.t.job; var first := LogOf(s, j)[1].first;
      && RowsOf(s.audits, j, s.jobs[j].ops, s.jobs[j].payloadHash, first)
      && forall i :: first <= i < first + |s.jobs[j].ops| ==> s.audits[i].outcome.Pending?
  {
    hide Apply, Reachable, RowsOf, Inv, JobOk, LogOk;
    GetIs(s);
    PostIs(s);
    AskSltIs(s);
    ReachableOk(s);
    WorkingFacts(s);
  }

  lemma JobFacts(s: State, j: nat)
    requires Inv(s) && j < |s.jobs|
    ensures j < |s.logs| && JobOk(s.jobs[j], s.logs[j], Busy(s, j))
    ensures AuditsOk(s.audits, j, s.logs[j], s.jobs[j].ops, s.jobs[j].payloadHash)
  {
    hide JobOk, AuditsOk;
    assert JobOk(s.jobs[j], s.logs[j], Busy(s, j));
    assert AuditsOk(s.audits, j, s.logs[j], s.jobs[j].ops, s.jobs[j].payloadHash);
  }

  /** A job's rows are final exactly when its execution closed: rows left
      pending belong to the execution in progress or to one that crashed. */
  lemma PendingExactlyWhenUnfinished(s: State, j: nat, i: nat)
    requires Reachable(s) && j < |s.jobs| && i < |s.audits| && s.audits[i].job == j
    ensures Inserted(LogOf(s, j))
    ensures s.audits[i].outcome.Pending? <==> Busy(s, j) || EndsWith(LogOf(s, j), Crashed)
  {
    hide Reachable, Inv, LogOk, RowMeans;
    ReachableOk(s);
    JobFacts(s, j);
    var log, ops := LogOf(s, j), s.jobs[j].ops;
    var first := log[1].first;
    assert first <= i < first + |ops|;
    if log[|log| - 1].Closed? {
      var k := i - first;
      assert RowMeans(log, ops[k], s.audits[first + k].outcome, s.audits[first + k].schoolMsg);
      MeaningIsFinal(log, ops[k], s.audits[i].outcome, s.audits[i].schoolMsg);
    }
  }

  /** Closing leaves exactly the batch's rows, in op order, each with the outcome
      the school's words give it. */
  lemma ClosureIsComplete(s: State, j: nat)
    requires Reachable(s) && j < |s.jobs| && ClosedWithRows(LogOf(s, j))
    ensures var ops := s.jobs[j].ops; var first := LogOf(s, j)[1].first;
      && !Active(s.jobs[j].status)
      && RowsOf(s.audits, j, ops, s.jobs[j].payloadHash, first)
      && (forall k :: 0 <= k < |ops| ==>
            RowMeans(LogOf(s, j), ops[k], s.audits[first + k].outcome, s.audits[first + k].schoolMsg))
      && (forall i :: first <= i < first + |ops| ==> !s.audits[i].outcome.Pending?)
  {
    hide Reachable, LogOk, RowMeans;
    ReachableOk(s);
    var log, ops := s.logs[j], s.jobs[j].ops;
    assert JobOk(s.jobs[j], log, Busy(s, j)) && AuditsOk(s.audits, j, log, ops, s.jobs[j].payloadHash);
    var first := log[1].first;
    forall i | first <= i < first + |ops| ensures !s.audits[i].outcome.Pending? {
      var row := s.audits[first + (i - first)];
      assert RowMeans(log, ops[i - first], row.outcome, row.schoolMsg);
      MeaningIsFinal(log, ops[i - first], row.outcome, row.schoolMsg);
    }
  }

  lemma MeaningIsFinal(log: seq<Event>, op: Op, outcome: Outcome, msg: Option<string>)
    requires RowMeans(log, op, outcome, msg)
    ensures !outcome.Pending?
  {
  }

  /** Every form posted for a job is drawn from the one form page that was read
      for it: that job's batch row by row, the page's own fields elsewhere. */
  lemma PostsCarryTheBatch(s: State, j: nat, i: nat)
    requires Reachable(s) && j < |s.jobs| && i < |LogOf(s, j)| && LogOf(s, j)[i].Post?
    ensures Num(LogOf(s, j), FORM) == 1 && FindPage(LogOf(s, j)).Some?
    ensures Drawn(LogOf(s, j)[i].payload, LogOf(s, j)[i].rows, s.jobs[j].ops, FindPage(LogOf(s, j)).value)
    ensures i >= 2 && LogOf(s, j)[0].Claimed? && LogOf(s, j)[1].AuditsInserted?
  {
    hide Drawn;
    ReachableOk(s);
    assert JobOk(s.jobs[j], LogOf(s, j), Busy(s, j));
    var log := LogOf(s, j);
    assert DrawnFrom(log[i].payload, log[i].rows, s.jobs[j].ops, FindPage(log));
    PageCounts(log);
    assert Num(log, FORM) <= Limit(FORM);
    assert i > 1 ==> Rank(log[1]) <= Rank(log[i]);
  }

  lemma {:induction false} PageCounts(log: seq<Event>)
    ensures FindPage(log).Some? <==> Num(log, FORM) > 0
  {
    if log != [] {
      PageCounts(log[..|log| - 1]);
    }
  }

  // ---------- duplicate honesty ----------

  /** After more than one post, a duplicate-like refusal is recorded as a
      failure only when slt_result was read for that job, and as what its last row
      with that long code says. Whether that row is the op's: see `Misreading`. */
  lemma DuplicatesAreNotFailures(s: State, j: nat, k: nat)
    requires Reachable(s) && j < |s.jobs| && k < |s.jobs[j].ops|
    requires ClosedWithRows(LogOf(s, j)) && FindAnswer(LogOf(s, j)).Some?
    requires Num(LogOf(s, j), POST) > 1
    requires var v := VerdictOf(FindAnswer(LogOf(s, j)).value, s.jobs[j].ops[k].code);
      v.kind.Refused? && v.duplicateLike
    ensures LogOf(s, j)[1].first + k < |s.audits|
    ensures var outcome := s.audits[LogOf(s, j)[1].first + k].outcome; var op := s.jobs[j].ops[k];
      match FindSlt(LogOf(s, j))
      case None => outcome == UnknownReconciled
      case Some(items) => outcome == if op.Add? == Reconcile.Held(items, op.code) then Success else Rejected
  {
    ClosureIsComplete(s, j);
    var row := s.audits[LogOf(s, j)[1].first + k];
    assert RowMeans(LogOf(s, j), s.jobs[j].ops[k], row.outcome, row.schoolMsg);
  }

  /** What slt_result makes of a row, by whether it lists the course as selected. */
  predicate SettledRow(row: Audit, op: Op, listed: bool) {
    if op.Add? then
      if listed then row.outcome == Success && row.schoolMsg == Some("對帳確認:slt_result 載選上/登記加選")
      else row.outcome == Rejected && row.schoolMsg == Some("對帳確認:slt_result 未選上,加選未成立")
    else
      if listed then row.outcome == Rejected && row.schoolMsg == Some("對帳確認:slt_result 仍載選上,退選未成立")
      else row.outcome == Success && row.schoolMsg == Some("對帳確認:slt_result 無選上紀錄,退選成立")
  }

  /** The row of an answered op says what the answer says of its code: accepted is
      a success, refused a failure, what the page does not show or decide is
      unparsed, each with the school's own words. Only a duplicate-like refusal
      after a retry is left to slt_result. */
  lemma RecordedAsAnswered(s: State, j: nat, k: nat)
    requires Reachable(s) && j < |s.jobs| && k < |s.jobs[j].ops|
    requires ClosedWithRows(LogOf(s, j)) && FindAnswer(LogOf(s, j)).Some?
    ensures LogOf(s, j)[1].first + k < |s.audits|
    ensures var row := s.audits[LogOf(s, j)[1].first + k]; var op := s.jobs[j].ops[k];
      var v := FindAnswer(LogOf(s, j)).value;
      && row.job == j && row.course == op.code && row.payloadHash == s.jobs[j].payloadHash
      && row.action == (if op.Add? then "+" else if op.Drop? then "-" else "N")
      && (op.code !in v ==> row.outcome == ParseFailed && row.schoolMsg == None)
      && (op.code in v && v[op.code].kind == Accepted ==>
            row.outcome == Success && row.schoolMsg == v[op.code].schoolMsg)
      && (op.code in v && v[op.code].kind == Unparsed ==>
            row.outcome == ParseFailed && row.schoolMsg == v[op.code].schoolMsg)
      && (op.code in v && v[op.code].kind == Refused && !(v[op.code].duplicateLike && Num(LogOf(s, j), POST) > 1) ==>
            row.outcome == Rejected && row.schoolMsg == v[op.code].schoolMsg)
      && (op.code in v && v[op.code].kind == Refused && v[op.code].duplicateLike && Num(LogOf(s, j), POST) > 1 ==>
            match FindSlt(LogOf(s, j))
            case None => row.outcome == UnknownReconciled && row.schoolMsg == v[op.code].schoolMsg
            case Some(items) => SettledRow(row, op, Reconcile.Held(items, op.code)))
  {
    ClosureIsComplete(s, j);
    var row := s.audits[LogOf(s, j)[1].first + k];
    assert RowMeans(LogOf(s, j), s.jobs[j].ops[k], row.outcome, row.schoolMsg);
  }

  /** Reconciliation resolves all unknown rows of a job or none of them. */
  lemma ReconcileResolvesAllOrNone(s: State, j: nat, k: nat)
    requires Reachable(s) && j < |s.jobs| && k < |s.jobs[j].ops|
    requires ClosedWithRows(LogOf(s, j))
    ensures LogOf(s, j)[1].first + k < |s.audits|
    ensures FindSlt(LogOf(s, j)).Some? && FindAnswer(LogOf(s, j)).Some? ==>
      !s.audits[LogOf(s, j)[1].first + k].outcome.UnknownReconciled?
    ensures s.audits[LogOf(s, j)[1].first + k].outcome.UnknownReconciled? ==> Num(LogOf(s, j), POST) > 1
  {
    ClosureIsComplete(s, j);
    var row := s.audits[LogOf(s, j)[1].first + k];
    assert RowMeans(LogOf(s, j), s.jobs[j].ops[k], row.outcome, row.schoolMsg);
  }

  // ---------- absorbing statuses ----------

  lemma StepEvolves(s: State, a: Action)
    requires Inv(s)
    ensures Evolves(s.jobs, Apply(s, a).jobs)
  {
    hide Inv;
    if a.WorkerClose? {
      CloseEvolves(s);
    } else if a.InsertJob? {
      InsertEvolves(s, a.h);
    } else if WritesJobs(a) {
      WriteEvolves(s, a);
    } else {
      OtherStepsKeepJobs(s, a);
    }
  }

  /** The guarded updates of the job table. */
  predicate WritesJobs(a: Action) {
    a.Login? || a.WorkerReadClock? || a.WorkerClaim? || a.WorkerCancel? || a.WorkerFail? || a.WorkerSweep?
  }

  lemma WriteEvolves(s: State, a: Action)
    requires WritesJobs(a)
    ensures Evolves(s.jobs, Apply(s, a).jobs)
  {
  }

  lemma CloseEvolves(s: State)
    requires Inv(s)
    ensures Evolves(s.jobs, CloseJob(s).jobs)
  {
    if s.worker.Working? && s.worker.step.Close? {
      WorkingFacts(s);
    }
  }

  lemma InsertEvolves(s: State, h: nat)
    ensures Evolves(s.jobs, InsertRow(s, h).jobs)
  {
  }

  lemma OtherStepsKeepJobs(s: State, a: Action)
    requires !WritesJobs(a) && !a.InsertJob? && !a.WorkerClose?
    ensures Apply(s, a).jobs == s.jobs
  {
  }

  lemma {:induction false} RunEvolves(s: State, actions: seq<Action>)
    requires Inv(s)
    ensures Evolves(s.jobs, Run(s, actions).jobs)
  {
    if actions != [] {
      var front := actions[..|actions| - 1];
      RunEvolves(s, front);
      RunKeepsInv(s, front);
      StepEvolves(Run(s, front), actions[|actions| - 1]);
      EvolvesTransitive(s.jobs, Run(s, front).jobs, Run(s, actions).jobs);
    }
  }

  /** A terminal row never changes again, whoever acts, and is exactly a row with
      a finish time. */
  lemma TerminalIsAbsorbing(s: State, actions: seq<Action>, j: nat)
    requires Reachable(s) && j < |s.jobs|
    ensures s.jobs[j].finishedAt.Some? <==> !Active(s.jobs[j].status)
    ensures j < |Run(s, actions).jobs|
    ensures !Active(s.jobs[j].status) ==> Run(s, actions).jobs[j] == s.jobs[j]
    ensures Run(s, actions).jobs[j].ops == s.jobs[j].ops && Run(s, actions).jobs[j].payloadHash == s.jobs[j].payloadHash
  {
    ReachableOk(s);
    assert JobOk(s.jobs[j], LogOf(s, j), Busy(s, j));
    RunEvolves(s, actions);
    assert RowEvolves(s.jobs[j], Run(s, actions).jobs[j]);
  }

  /** A login in the middle of a run ends the student's jobs for good: no later
      write of the engine, of a sweep or of anything else replaces the status. */
  lemma SupersedeWins(s: State, student: string, actions: seq<Action>, j: nat)
    requires Reachable(s) && j < |s.jobs| && s.jobs[j].student == student && Active(s.jobs[j].status)
    ensures var later := Run(Apply(s, Login(student)), actions);
      j < |later.jobs| && later.jobs[j].status == SessionSuperseded && later.jobs[j].finishedAt == Some(s.now)
  {
    ReachableOk(s);
    var s1 := Apply(s, Login(student));
    ApplyKeepsInv(s, Login(student));
    RunEvolves(s1, actions);
    assert RowEvolves(s1.jobs[j], Run(s1, actions).jobs[j]);
  }

  /** A sweep ends every active job older than its cutoff, and none that is
      being executed: a running job it ends had crashed. */
  lemma SweepReapsOnlyAbandoned(s: State, j: nat)
    requires Reachable(s) && s.worker.Sweeping? && j < |s.jobs|
    ensures var after := Apply(s, WorkerSweep);
      && (Active(after.jobs[j].status) ==> after.jobs[j].createdAt >= s.worker.cutoff)
      && (after.jobs[j] != s.jobs[j] ==> !Busy(s, j) && (LogOf(s, j) == [] || EndsWith(LogOf(s, j), Crashed)))
      && (s.jobs[j].status.Running? ==> EndsWith(LogOf(s, j), Crashed))
  {
    hide Reachable, LogOk, AuditsOk, TicketsOk, HashesUnique, TokenOk;
    ReachableOk(s);
    assert JobOk(s.jobs[j], LogOf(s, j), Busy(s, j));
  }

  // ---------- submission ----------

  /** At most one active job carries a payload hash; every queued ticket names an
      existing job and re-derives its batch and hash; jobs created under a
      confirm token never outnumber its mints. */
  lemma SubmissionIsConserved(s: State, token: Token)
    requires Reachable(s)
    ensures HashesUnique(s.jobs)
    ensures forall i :: 0 <= i < |s.queue| ==> TicketOk(s.jobs, s.queue[i])
    ensures Times(s.origins, token) <= Times(s.mints, token)
    ensures |s.origins| == |s.jobs|
  {
    ReachableOk(s);
    assert TokenOk(s, token);
  }

  /** So a popped ticket never takes the corrupt-segments branch. */
  lemma TicketsAlwaysParse(s: State)
    requires Reachable(s) && s.worker.Popped?
    ensures Parse(s.worker.t.segments).Ok? && Apply(s, WorkerReadClock).worker.Claiming?
  {
    ReachableOk(s);
  }
}
