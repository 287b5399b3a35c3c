/** What each change of a job row means: who made it, when, and under which
    clock. */
module JobRows {
  import opened Wrappers
  import opened Ops
  import opened Segments
  import opened Ledger
  import opened Protocol
  import opened ProtocolInvariant
  import opened ProtocolTheorems
  import opened Statuses

  // ---------- one step ----------

  /** A row changes only by a claim, or by the end its writer gives it, and is
      stamped with the instant of the write. */
  lemma ChangesAreStamped(s: State, a: Action, j: nat)
    requires Reachable(s) && j < |s.jobs|
    ensures j < |Apply(s, a).jobs|
    ensures var b := s.jobs[j]; var c := Apply(s, a).jobs[j];
      || c == b
      || (a.WorkerClaim? && b.status == Queued && c == b.(status := Running, startedAt := Some(s.now)))
      || (b.status in {Queued, Running} && c == b.(status := c.status, finishedAt := Some(s.now))
          && match a
             case Login(student) => student == b.student && c.status == SessionSuperseded
             case WorkerSweep => c.status == Cancelled
             case WorkerCancel => c.status == Cancelled
             case WorkerReadClock => c.status == Failed
             case WorkerFail => c.status == Failed
             case WorkerClose => c.status == if FindAnswer(LogOf(s, j)).Some? then Done else Failed
             case _ => false)
  {
    hide Reachable, Inv;
    ReachableOk(s);
    if a.WorkerClose? {
      ClosesAreStamped(s, j);
    } else if WritesJobs(a) || a.InsertJob? {
      WritesAreStamped(s, a, j);
    } else {
      hide *;
      OtherStepsKeepJobs(s, a);
    }
  }

  lemma WritesAreStamped(s: State, a: Action, j: nat)
    requires WritesJobs(a) || a.InsertJob?
    requires j < |s.jobs|
    ensures j < |Apply(s, a).jobs|
    ensures var b := s.jobs[j]; var c := Apply(s, a).jobs[j];
      || c == b
      || (a.WorkerClaim? && b.status == Queued && c == b.(status := Running, startedAt := Some(s.now)))
      || (b.status in {Queued, Running} && c == b.(status := c.status, finishedAt := Some(s.now))
          && match a
             case Login(student) => student == b.student && c.status == SessionSuperseded
             case WorkerSweep => c.status == Cancelled
             case WorkerCancel => c.status == Cancelled
             case WorkerReadClock => c.status == Failed
             case WorkerFail => c.status == Failed
             case _ => false)
  {
    hide HasActive, Parse, PayloadHash;
  }

  lemma ClosesAreStamped(s: State, j: nat)
    requires Reachable(s) && Inv(s) && j < |s.jobs|
    ensures j < |CloseJob(s).jobs|
    ensures var b := s.jobs[j]; var c := CloseJob(s).jobs[j];
      || c == b
      || (b.status in {Queued, Running} && c == b.(status := c.status, finishedAt := Some(s.now))
          && c.status == if FindAnswer(LogOf(s, j)).Some? then Done else Failed)
  {
    hide Inv, ApplyOutcomes, Reachable, FindAnswer, JobOk, LogOk, AuditsOk, AtStep;
    if s.worker.Working? && s.worker.step.Close? {
      WorkingFacts(s);
      ClosingOwes(s);
    }
  }

  lemma ClosingOwes(s: State)
    requires Reachable(s) && s.worker.Working? && s.worker.step.Close?
    ensures s.worker.step.status == if FindAnswer(LogOf(s, s.worker.t.job)).Some? then Done else Failed
  {
    hide Apply, Run, FindAnswer, StatusMeans;
    var now: int, dwell: nat, actions: seq<Action> :| s == Run(Initial(now, dwell), actions);
    RunIsTold(now, dwell, actions);
  }

  /** A row appears only by an insert, queued, with the batch and the hash of the
      handler that checked them, under the token it was taken with. */
  lemma JobsAreBornQueued(s: State, a: Action)
    requires Reachable(s) && |Apply(s, a).jobs| != |s.jobs|
    ensures a.InsertJob? && a.h < |s.handlers| && s.handlers[a.h].Checked?
    ensures var x := s.handlers[a.h];
      && Apply(s, a).jobs ==
          s.jobs + [Job(x.student, Queued, x.ops, PayloadHash(x.student, x.ops), s.now, None, None)]
      && Apply(s, a).origins == s.origins + [x.token] && Apply(s, a).logs == s.logs + [[]]
      && Parse(x.record.segments) == Ok(x.ops)
  {
    hide Reachable, Inv, Parse, PayloadHash, HasActive;
    ReachableOk(s);
    if WritesJobs(a) {
      WritesKeepLength(s, a);
    } else if a.InsertJob? {
      InsertedParses(s, a.h);
    } else if a.WorkerClose? {
    } else {
      OtherStepsKeepJobs(s, a);
    }
  }

  lemma WritesKeepLength(s: State, a: Action)
    requires WritesJobs(a)
    ensures |Apply(s, a).jobs| == |s.jobs|
  {
  }

  lemma InsertedParses(s: State, h: nat)
    requires Inv(s) && h < |s.handlers| && s.handlers[h].Checked?
    ensures Parse(s.handlers[h].record.segments) == Ok(s.handlers[h].ops)
  {
    hide JobsOk, HashesUnique, TokenOk, WorkerOk;
    assert HandlerOk(s.jobs, s.handlers[h]);
  }

  // ---------- the clock of a claim and of a sweep ----------

  lemma ForeignLeavesWorker(s: State, a: Action)
    requires Foreign(a)
    ensures Apply(s, a).worker == s.worker
  {
  }

  lemma {:induction false} ForeignRunLeavesWorker(s: State, actions: seq<Action>)
    requires forall a :: a in actions ==> Foreign(a)
    ensures Run(s, actions).worker == s.worker
  {
    hide Apply, Foreign;
    if actions != [] {
      ForeignRunLeavesWorker(s, actions[..|actions| - 1]);
      ForeignLeavesWorker(Run(s, actions[..|actions| - 1]), actions[|actions| - 1]);
    }
  }

  /** A popped job is claimed exactly when it is queued and was created no longer
      than the dwell before the worker read its clock, whatever happened since. */
  lemma ClaimIsFresh(s: State, actions: seq<Action>)
    requires Reachable(s) && s.worker.Popped? && forall a :: a in actions ==> Foreign(a)
    ensures var j := s.worker.t.job;
      var u := Run(Apply(s, WorkerReadClock), actions); var after := Apply(u, WorkerClaim);
      && j < |u.jobs|
      && (if u.jobs[j].status == Queued && u.jobs[j].createdAt >= s.now - s.dwell then
            && after.jobs == u.jobs[j := u.jobs[j].(status := Running, startedAt := Some(u.now))]
            && after.worker.Working? && after.worker.t == s.worker.t && after.worker.ops == u.jobs[j].ops
          else after == u.(worker := Unclaimed(s.worker.t)))
  {
    hide Apply, Run, Reachable, Inv;
    TicketsAlwaysParse(s);
    ReachableOk(s);
    ReadClockIs(s);
    var r := Apply(s, WorkerReadClock);
    ApplyKeepsInv(s, WorkerReadClock);
    RunKeepsInv(r, actions);
    ForeignRunLeavesWorker(r, actions);
    var u := Run(r, actions);
    ClaimIs(u);
    ClaimingJob(u);
  }

  lemma ClaimingJob(s: State)
    requires Inv(s) && s.worker.Claiming?
    ensures s.worker.t.job < |s.jobs| == |s.logs| && s.worker.ops == s.jobs[s.worker.t.job].ops
  {
  }

  /** A sweep cancels exactly the active jobs created before its cutoff, the dwell
      before the clock it read, and stamps them with its own instant. */
  lemma SweepCancelsExactly(s: State, actions: seq<Action>)
    requires s.worker.Idle? && forall a :: a in actions ==> Foreign(a)
    ensures var u := Run(Apply(s, WorkerSweepClock), actions); var after := Apply(u, WorkerSweep);
      && |after.jobs| == |u.jobs|
      && forall j :: 0 <= j < |u.jobs| ==>
           after.jobs[j] ==
             if u.jobs[j].status in {Queued, Running} && u.jobs[j].createdAt < s.now - s.dwell then
               u.jobs[j].(status := Cancelled, finishedAt := Some(u.now))
             else u.jobs[j]
  {
    hide Apply, Run;
    SweepClockIs(s);
    ForeignRunLeavesWorker(Apply(s, WorkerSweepClock), actions);
    SweepIs(Run(Apply(s, WorkerSweepClock), actions));
  }

  /** A ticket that does not parse ends its job, if it is still active, and the
      worker is free again. */
  lemma CorruptTicketFails(s: State)
    requires s.worker.Popped? && s.worker.t.job < |s.jobs| && Parse(s.worker.t.segments).Err?
    ensures var j := s.worker.t.job;
      Apply(s, WorkerReadClock) ==
        if s.jobs[j].status in {Queued, Running} then
          s.(jobs := s.jobs[j := s.jobs[j].(status := Failed, finishedAt := Some(s.now))], worker := Idle)
        else s.(worker := Idle)
  {
    hide Parse, Apply;
    ReadClockIs(s);
    assert s.jobs[s.worker.t.job := s.jobs[s.worker.t.job]] == s.jobs;
  }

  /** A job that was not claimed is cancelled, whatever happens in between, exactly
      when it was still queued then and is still active now; the worker is free. */
  lemma UnclaimedIsSettled(s: State, actions: seq<Action>)
    requires s.worker.Unclaimed? && s.worker.t.job < |s.jobs| && forall a :: a in actions ==> Foreign(a)
    ensures var j := s.worker.t.job;
      var read := Apply(s, WorkerReadUnclaimed); var u := Run(read, actions); var after := Apply(u, WorkerCancel);
      && read == s.(worker := read.worker)
      && (s.jobs[j].status != Queued ==> read.worker.Idle?)
      && (s.jobs[j].status == Queued ==>
            after == if j < |u.jobs| && u.jobs[j].status in {Queued, Running} then
                u.(jobs := u.jobs[j := u.jobs[j].(status := Cancelled, finishedAt := Some(u.now))], worker := Idle)
              else u.(worker := Idle))
  {
    var read := Apply(s, WorkerReadUnclaimed);
    ForeignRunLeavesWorker(read, actions);
    if s.jobs[s.worker.t.job].status == Queued {
      CancelEnds(Run(read, actions));
    }
  }

  lemma CancelEnds(u: State)
    requires u.worker.Stale?
    ensures var j := u.worker.t.job;
      Apply(u, WorkerCancel) ==
        if j < |u.jobs| && u.jobs[j].status in {Queued, Running} then
          u.(jobs := u.jobs[j := u.jobs[j].(status := Cancelled, finishedAt := Some(u.now))], worker := Idle)
        else u.(worker := Idle)
  {
    assert u.worker.t.job < |u.jobs| ==> u.jobs[u.worker.t.job := u.jobs[u.worker.t.job]] == u.jobs;
  }

  /** A crash leaves every row, ticket and token as it was; the next worker starts
      idle, and a started execution is over. */
  lemma CrashAbandons(s: State)
    requires Reachable(s)
    ensures var after := Apply(s, WorkerCrash);
      && after.worker.Idle? && after == s.(worker := after.worker, logs := after.logs)
      && (!s.worker.Working? ==> after.logs == s.logs)
      && (s.worker.Working? ==>
            && s.worker.t.job < |s.logs| && IsOver(after.logs[s.worker.t.job])
            && after.logs == s.logs[s.worker.t.job := s.logs[s.worker.t.job] + [Crashed]])
  {
    hide Reachable, Inv;
    ReachableOk(s);
    if s.worker.Working? {
      WorkingFacts(s);
    }
  }

  // ---------- giving up ----------

  /** With the audit sink down the job fails, unless it ended meanwhile, with no row
      written, its history closed and the school never called. */
  lemma SinkDownFails(s: State, actions: seq<Action>)
    requires Reachable(s) && s.worker.Working? && s.worker.step.InsertAudits?
    requires forall a :: a in actions ==> Foreign(a)
    ensures var j := s.worker.t.job;
      var u := Run(Apply(s, WorkerInsertAudits(false)), actions); var after := Apply(u, WorkerFail);
      && j < |u.jobs| == |u.logs| && u.logs[j] == [Claimed]
      && after.logs == u.logs[j := [Claimed, Closed]] && after.audits == u.audits && after.worker.Idle?
      && after.jobs ==
           if u.jobs[j].status in {Queued, Running} then
             u.jobs[j := u.jobs[j].(status := Failed, finishedAt := Some(u.now))]
           else u.jobs
  {
    hide Apply, Run, Inv, Reachable;
    ReachableOk(s);
    WorkingFacts(s);
    InsertAuditsIs(s, false);
    var down := Apply(s, WorkerInsertAudits(false));
    ApplyKeepsInv(s, WorkerInsertAudits(false));
    ForeignRunLeavesWorker(down, actions);
    RunKeepsInv(down, actions);
    var u := Run(down, actions);
    WorkingFacts(u);
    SinkEnds(u);
    assert u.worker.t == s.worker.t && u.worker.step == SinkDown;
    assert u.logs[s.worker.t.job] == [Claimed] && [Claimed] + [Closed] == [Claimed, Closed];
  }

  lemma SinkEnds(u: State)
    requires u.worker.Working? && u.worker.step.SinkDown? && u.worker.t.job < |u.jobs| == |u.logs|
    ensures var j := u.worker.t.job; var after := Apply(u, WorkerFail);
      && after.logs == u.logs[j := u.logs[j] + [Closed]] && after.audits == u.audits && after.worker.Idle?
      && after.jobs ==
           if u.jobs[j].status in {Queued, Running} then
             u.jobs[j := u.jobs[j].(status := Failed, finishedAt := Some(u.now))]
           else u.jobs
  {
    assert u.jobs[u.worker.t.job := u.jobs[u.worker.t.job]] == u.jobs;
  }

  /** The row of a job closed without an answer says how far it came, and nothing
      was said for it: a login page means an expired stage, three lost posts or
      three lost form reads a transport failure, and once the form was there
      either it was no use or a login came first. */
  lemma GivenUpAsHappened(s: State, j: nat, k: nat)
    requires Reachable(s) && j < |s.jobs| && k < |s.jobs[j].ops|
    requires ClosedWithRows(LogOf(s, j)) && FindAnswer(LogOf(s, j)).None?
    ensures LogOf(s, j)[1].first + k < |s.audits|
    ensures var row := s.audits[LogOf(s, j)[1].first + k]; var log := LogOf(s, j); var page := FindPage(log);
      && row.schoolMsg == None
      && row.outcome in {StageExpired, Superseded, ParseFailed, TransportFailed}
      && (Bounced in log ==> row.outcome == StageExpired)
      && (Bounced !in log && Num(log, POST) > 0 ==> row.outcome == TransportFailed && Num(log, POST) == 3)
      && (Bounced !in log && Num(log, POST) == 0 ==>
            match page
            case Some(p) =>
              if p.bounce then row.outcome == StageExpired else row.outcome in {ParseFailed, Superseded}
            case None =>
              if Num(log, GET) == 0 then row.outcome in {StageExpired, Superseded}
              else row.outcome == TransportFailed && Num(log, GET) == 3)
  {
    hide Reachable, FindAnswer;
    ClosureIsComplete(s, j);
    var log := LogOf(s, j);
    var row := s.audits[log[1].first + k];
    assert RowMeans(log, s.jobs[j].ops[k], row.outcome, row.schoolMsg);
    ReachableOk(s);
    assert JobOk(s.jobs[j], s.logs[j], Busy(s, j));
    PageCounts(log);
    PostsHavePage(log, s.jobs[j].ops);
  }

  lemma PostsHavePage(log: seq<Event>, ops: seq<Op>)
    requires PostsDrawn(log, ops)
    ensures Num(log, POST) > 0 ==> FindPage(log).Some? && !FindPage(log).value.bounce
  {
    if Num(log, POST) > 0 {
      var i := SomePost(log);
      assert DrawnFrom(log[i].payload, log[i].rows, ops, FindPage(log));
    }
  }

  lemma {:induction false} SomePost(log: seq<Event>) returns (i: nat)
    requires Num(log, POST) > 0
    ensures i < |log| && log[i].Post?
  {
    i := |log| - 1;
    if !log[i].Post? {
      i := SomePost(log[..|log| - 1]);
    }
  }

  // ---------- nothing is sent without a session ----------

  /** The execution of `j` has nothing left to do but to close. */
  predicate OnlyCloses(s: State, j: nat) {
    Busy(s, j) ==> s.worker.step.Close?
  }

  /** The events that contact the school, so far. */
  function ContactsOf(s: State, j: nat): nat {
    Num(LogOf(s, j), GET) + Num(LogOf(s, j), POST) + Num(LogOf(s, j), ASK)
  }

  lemma ClosingStep(s: State, a: Action, j: nat)
    requires Inv(s) && j < |s.jobs| && s.jobs[j].status != Queued && OnlyCloses(s, j)
    ensures OnlyCloses(Apply(s, a), j) && ContactsOf(Apply(s, a), j) == ContactsOf(s, j)
    ensures j < |Apply(s, a).jobs| && Apply(s, a).jobs[j].status != Queued
  {
    hide Inv, ContactsOf, Apply, Busy;
    StepEvolves(s, a);
    assert RowEvolves(s.jobs[j], Apply(s, a).jobs[j]);
    LogLengths(s);
    if Busy(s, j) {
      ClosingOnly(s, a, j);
    } else {
      StaysIdle(s, a, j);
    }
  }

  lemma LogLengths(s: State)
    requires Inv(s)
    ensures |s.logs| == |s.jobs|
  {
  }

  lemma StaysIdle(s: State, a: Action, j: nat)
    requires j < |s.jobs| == |s.logs| && s.jobs[j].status != Queued && !Busy(s, j)
    ensures !Busy(Apply(s, a), j) && ContactsOf(Apply(s, a), j) == ContactsOf(s, j)
  {
    OtherLogsStay(s, a, j);
    NotBusyStays(s, a, j);
  }

  lemma NotBusyStays(s: State, a: Action, j: nat)
    requires j < |s.jobs| && s.jobs[j].status != Queued && !Busy(s, j)
    ensures !Busy(Apply(s, a), j)
  {
  }

  lemma ClosingOnly(s: State, a: Action, j: nat)
    requires j < |s.jobs| == |s.logs| && Busy(s, j) && s.worker.step.Close?
    ensures OnlyCloses(Apply(s, a), j) && ContactsOf(Apply(s, a), j) == ContactsOf(s, j)
  {
    hide Num;
    ClosingLog(s, a, j);
    EndIsNoContact(s.logs[j]);
  }

  lemma ClosingLog(s: State, a: Action, j: nat)
    requires j < |s.jobs| == |s.logs| && Busy(s, j) && s.worker.step.Close?
    ensures OnlyCloses(Apply(s, a), j)
    ensures LogOf(Apply(s, a), j) in {s.logs[j], s.logs[j] + [Closed], s.logs[j] + [Crashed]}
  {
    hide Take, Mint, Check, Verify, InsertRow, Push, Supersede, ApplyOutcomes, Finish, CancelStale, PayloadHash;
    if Foreign(a) {
      ForeignLeavesWorker(s, a);
      ForeignLogs(s, a, j);
    }
  }

  lemma ForeignLogs(s: State, a: Action, j: nat)
    requires Foreign(a) && j < |s.logs|
    ensures LogOf(Apply(s, a), j) == s.logs[j]
  {
  }

  lemma EndIsNoContact(log: seq<Event>)
    ensures forall r: nat :: r < END ==> Num(log + [Closed], r) == Num(log, r) && Num(log + [Crashed], r) == Num(log, r)
  {
    NumSnoc(log, Closed);
    NumSnoc(log, Crashed);
  }

  lemma {:induction false} ClosingRun(s: State, actions: seq<Action>, j: nat)
    requires Inv(s) && j < |s.jobs| && s.jobs[j].status != Queued && OnlyCloses(s, j)
    ensures ContactsOf(Run(s, actions), j) == ContactsOf(s, j)
    ensures OnlyCloses(Run(s, actions), j) && j < |Run(s, actions).jobs| && Run(s, actions).jobs[j].status != Queued
  {
    hide Apply, Inv, ContactsOf, OnlyCloses;
    if actions != [] {
      var front := actions[..|actions| - 1];
      ClosingRun(s, front, j);
      RunKeepsInv(s, front);
      ClosingStep(Run(s, front), actions[|actions| - 1], j);
    }
  }

  /** Where the session is dead, or the job ended, the school is never contacted
      for it again, and the rows are to say so. */
  lemma NoSessionNoContact(s: State, a: Action, actions: seq<Action>)
    requires Reachable(s) && s.worker.Working?
    requires
      || (a == WorkerJar(false) && (s.worker.step.LoadJar? || s.worker.step.ReloadJar?))
      || (a == WorkerCheckStatus && (s.worker.step.CheckBeforeForm? || s.worker.step.CheckBeforePost?)
          && s.worker.t.job < |s.jobs| && s.jobs[s.worker.t.job].status != Running)
    ensures var j := s.worker.t.job; var t := Apply(s, a);
      && t.worker.Working? && t.worker.step.Close?
      && ContactsOf(Run(t, actions), j) == ContactsOf(s, j)
      && (!s.worker.step.ReloadJar? ==>
            |t.worker.step.updates| == |s.worker.ops| && forall k :: 0 <= k < |s.worker.ops| ==>
              t.worker.step.updates[k].outcome == if a.WorkerJar? then StageExpired else Superseded)
      && (s.worker.step.ReloadJar? ==> t.worker.step.updates == s.worker.step.updates)
  {
    hide Apply, Run, Reachable, Inv;
    ReachableOk(s);
    WorkingFacts(s);
    StartedIsNotQueued(s, s.worker.t.job);
    if a.WorkerJar? {
      JarIs(s, false);
    } else {
      CheckStatusIs(s);
    }
    ApplyKeepsInv(s, a);
    ClosingRun(Apply(s, a), actions, s.worker.t.job);
  }

  lemma StartedIsNotQueued(s: State, j: nat)
    requires Inv(s) && Busy(s, j) && j < |s.jobs|
    ensures s.jobs[j].status != Queued
  {
    WorkingFacts(s);
  }

  // ---------- no job without a password ----------

  /** The passwords the school accepted in a run. */
  function Accepted(actions: seq<Action>): nat {
    if actions == [] then 0
    else
      var last := actions[|actions| - 1];
      Accepted(actions[..|actions| - 1]) + if last.VerifyPassword? && last.accepted then 1 else 0
  }

  /** Submits past the password check and before the insert. */
  function Cleared(handlers: seq<Handler>): nat {
    if handlers == [] then 0
    else
      var last := handlers[|handlers| - 1];
      Cleared(handlers[..|handlers| - 1]) + if last.Verified? || last.Checked? then 1 else 0
  }

  lemma ClearedSnoc(handlers: seq<Handler>, x: Handler)
    ensures Cleared(handlers + [x]) == Cleared(handlers) + if x.Verified? || x.Checked? then 1 else 0
  {
    assert (handlers + [x])[..|handlers|] == handlers;
  }

  lemma {:induction false} ClearedUpdate(handlers: seq<Handler>, h: nat, x: Handler)
    requires h < |handlers|
    ensures Cleared(handlers[h := x]) + (if handlers[h].Verified? || handlers[h].Checked? then 1 else 0)
         == Cleared(handlers) + (if x.Verified? || x.Checked? then 1 else 0)
  {
    var n := |handlers| - 1;
    if h == n {
      assert handlers[h := x][..n] == handlers[..n];
    } else {
      ClearedUpdate(handlers[..n], h, x);
      assert handlers[h := x][..n] == handlers[..n][h := x];
    }
  }

  lemma StepClears(s: State, a: Action)
    ensures |Apply(s, a).jobs| + Cleared(Apply(s, a).handlers) <=
      |s.jobs| + Cleared(s.handlers) + if a.VerifyPassword? && a.accepted then 1 else 0
  {
    if a.TakeToken? {
      TakeClears(s, a.token, a.student, a.session);
    } else if a.VerifyPassword? || a.CheckRecord? || a.InsertJob? || a.PushTicket? || a.Abandon? {
      if a.h < |s.handlers| {
        HandlerClears(s, a);
      }
    } else {
      OthersClear(s, a);
    }
  }

  lemma TakeClears(s: State, token: Token, student: string, session: string)
    ensures Take(s, token, student, session).jobs == s.jobs
    ensures Cleared(Take(s, token, student, session).handlers) == Cleared(s.handlers)
  {
    hide Cleared;
    if token in s.confirms {
      ClearedSnoc(s.handlers, Taken(token, s.confirms[token].record, student, session));
    }
  }

  lemma HandlerClears(s: State, a: Action)
    requires a.VerifyPassword? || a.CheckRecord? || a.InsertJob? || a.PushTicket? || a.Abandon?
    requires a.h < |s.handlers|
    ensures |Apply(s, a).jobs| + Cleared(Apply(s, a).handlers) <=
      |s.jobs| + Cleared(s.handlers) + if a.VerifyPassword? && a.accepted then 1 else 0
  {
    hide Cleared, Parse, PayloadHash, HasActive;
    ClearedUpdate(s.handlers, a.h, Apply(s, a).handlers[a.h]);
    assert Apply(s, a).handlers == s.handlers[a.h := Apply(s, a).handlers[a.h]];
  }

  lemma OthersClear(s: State, a: Action)
    requires !a.TakeToken? && !a.VerifyPassword? && !a.CheckRecord? && !a.InsertJob? && !a.PushTicket? && !a.Abandon?
    ensures |Apply(s, a).jobs| == |s.jobs| && Apply(s, a).handlers == s.handlers
  {
  }

  /** There are never more jobs than passwords the school accepted. */
  lemma {:induction false} JobsNeedPasswords(now: int, dwell: nat, actions: seq<Action>)
    ensures var s := Run(Initial(now, dwell), actions); |s.jobs| + Cleared(s.handlers) <= Accepted(actions)
  {
    hide Apply;
    if actions != [] {
      JobsNeedPasswords(now, dwell, actions[..|actions| - 1]);
      StepClears(Run(Initial(now, dwell), actions[..|actions| - 1]), actions[|actions| - 1]);
    }
  }
}
