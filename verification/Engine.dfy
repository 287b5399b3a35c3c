/** `write/engine.py` and `write/queue_loop.py` as the programs they are, over
    the shared tables, and `api/write_submit.py` with `auth/students.py` beside
    them. Each statement that commits is followed by the protocol step it is;
    between two of them any other actor may run. */
module Engine {
  import opened Wrappers
  import opened Ops
  import opened Segments
  import opened Ledger
  import opened Protocol
  import opened ProtocolInvariant
  import opened ProtocolTheorems
  import Reconcile
  import Payload

  /** `b` is reached from `a` by some steps of some actors. */
  ghost predicate Leads(a: State, b: State) {
    exists actions: seq<Action> :: b == Run(a, actions)
  }

  lemma LeadsSelf(a: State)
    ensures Leads(a, a)
  {
    assert a == Run(a, []);
  }

  lemma LeadsRun(a: State, actions: seq<Action>)
    ensures Leads(a, Run(a, actions))
  {
    hide Apply, Run;
    var b := Run(a, actions);
    assert b == Run(a, actions);
  }

  lemma LeadsStep(a: State, b: State, act: Action)
    requires Leads(a, b)
    ensures Leads(a, Apply(b, act))
  {
    hide Apply;
    var actions: seq<Action> :| b == Run(a, actions);
    assert (actions + [act])[..|actions|] == actions;
    assert Apply(b, act) == Run(a, actions + [act]);
  }

  lemma {:induction false} RunAppend(a: State, front: seq<Action>, back: seq<Action>)
    ensures Run(a, front + back) == Run(Run(a, front), back)
  {
    hide Apply;
    if back == [] {
      assert front + back == front;
    } else {
      var n := |back| - 1;
      RunAppend(a, front, back[..n]);
      assert (front + back)[..|front + back| - 1] == front + back[..n];
    }
  }

  lemma LeadsTransitive(a: State, b: State, c: State)
    requires Leads(a, b) && Leads(b, c)
    ensures Leads(a, c)
  {
    hide Apply;
    var front: seq<Action> :| b == Run(a, front);
    var back: seq<Action> :| c == Run(b, back);
    RunAppend(a, front, back);
    assert c == Run(a, front + back);
  }

  lemma LeadsReachable(a: State, b: State)
    requires Reachable(a) && Leads(a, b)
    ensures Reachable(b)
  {
    hide Apply;
    var now: int, dwell: nat, actions: seq<Action> :| a == Run(Initial(now, dwell), actions);
    assert Leads(Initial(now, dwell), a);
    LeadsTransitive(Initial(now, dwell), a, b);
  }

  /** What the worker keeps while the others run: where it stands, the audit
      rows, and what happened to the jobs. */
  ghost predicate Undisturbed(a: State, b: State) {
    && b.worker == a.worker && b.audits == a.audits
    && |a.logs| <= |b.logs| && forall j :: 0 <= j < |a.logs| ==> b.logs[j] == a.logs[j]
  }

  lemma ForeignStep(s: State, a: Action)
    requires Foreign(a)
    ensures Undisturbed(s, Apply(s, a))
  {
  }

  lemma {:induction false} ForeignRun(s: State, actions: seq<Action>)
    requires forall a :: a in actions ==> Foreign(a)
    ensures Undisturbed(s, Run(s, actions))
  {
    if actions != [] {
      hide Apply, Foreign;
      ForeignRun(s, actions[..|actions| - 1]);
      ForeignStep(Run(s, actions[..|actions| - 1]), actions[|actions| - 1]);
    }
  }

  class Site {
    const ledger: JobLedger
    var s: State

    /** The state a caller marked, to say what happened since. */
    ghost var since: State

    constructor (now: int, dwell: nat)
      ensures Valid() && fresh(ledger) && s == Initial(now, dwell)
    {
      ledger := new JobLedger();
      s, since := Initial(now, dwell), Initial(now, dwell);
      new;
      assert s == Run(Initial(now, dwell), []);
      LeadsSelf(s);
    }

    /** The tables hold what the protocol state says, and that state is one the
        protocol can be in, reached by its steps from the marked one. */
    ghost predicate Valid()
      reads this, ledger
    {
      Reachable(since) && Leads(since, s) && ledger.jobs == s.jobs && ledger.audits == s.audits
    }

    ghost method Mark()
      requires Valid()
      modifies this`since
      ensures Valid() && since == s
    {
      LeadsReachable(since, s);
      LeadsSelf(s);
      since := s;
    }

    /** Commit: the tables already hold what the step writes. */
    method Step(a: Action)
      requires Reachable(since) && Leads(since, s) && ledger.jobs == Apply(s, a).jobs
        && ledger.audits == Apply(s, a).audits
      modifies this`s
      ensures Valid() && s == Apply(old(s), a)
    {
      hide Apply, Leads, Reachable;
      LeadsStep(since, s, a);
      s := Apply(s, a);
    }

    /** An await of the worker: the other actors take any number of steps, and
        the awaited call may raise. */
    method Await() returns (raised: bool)
      requires Valid()
      modifies this`s, ledger
      ensures Valid() && Undisturbed(old(s), s)
    {
      hide Apply, Run, Leads, Reachable;
      var actions: seq<Action> := *;
      raised := *;
      if !(forall a :: a in actions ==> Foreign(a)) {
        actions := [];
      }
      ForeignRun(s, actions);
      LeadsRun(s, actions);
      LeadsTransitive(since, s, Run(s, actions));
      s := Run(s, actions);
      ledger.jobs, ledger.audits := s.jobs, s.audits;
    }

    ghost predicate At(t: Ticket, ops: seq<Op>, step: Protocol.Step)
      reads this, ledger
    {
      Valid() && s.worker == Working(t, ops, step)
    }

    /** An exception: the ticket is abandoned where it stands. */
    method Crash()
      requires Valid()
      modifies this`s
      ensures Valid() && s.worker.Idle?
    {
      hide Leads, Reachable;
      Step(WorkerCrash);
    }

    /** `claim_job`, with the cutoff read before the transaction. */
    method ClaimJob(t: Ticket, ops: seq<Op>, cutoff: int) returns (claimed: bool)
      requires Valid() && s.worker == Claiming(t, ops, cutoff)
      modifies this`s, ledger
      ensures Valid()
      ensures s.worker == if claimed then Working(t, ops, InsertAudits) else Unclaimed(t)
      ensures !claimed ==> s.logs == old(s).logs
    {
      hide Leads, Reachable;
      claimed := ledger.ClaimJob(t.job, cutoff, s.now);
      Step(WorkerClaim);
    }

    /** A claim that fails ends a job that is still queued, by then stale. */
    method CancelUnclaimed(t: Ticket) returns (raised: bool)
      requires Valid() && s.worker == Unclaimed(t)
      modifies this`s, ledger
      ensures Valid() && s.worker.Idle?
      ensures !raised ==>
        LogOf(s, t.job) == LogOf(old(s), t.job) && (t.job < |s.jobs| ==> !s.jobs[t.job].status.Queued?)
    {
      hide Leads, Reachable;
      WorkerLogExists(since, s);
      raised := Await();
      if raised {
        Crash();
        return;
      }
      var stillQueued := t.job < |ledger.jobs| && ledger.jobs[t.job].status.Queued?;
      Step(WorkerReadUnclaimed);
      if stillQueued {
        raised := Await();
        if raised {
          Crash();
          return;
        }
        var written := ledger.FinishJob(t.job, Cancelled, s.now);
        Step(WorkerCancel);
      }
    }

    /** One commit with every pending row, or no row at all. */
    method InsertPendingAudits(t: Ticket, ops: seq<Op>) returns (first: nat, ids: Option<seq<nat>>)
      requires At(t, ops, InsertAudits)
      modifies this`s, ledger
      ensures Valid()
      ensures ids.None? ==> s.worker == Working(t, ops, SinkDown)
      ensures ids.Some? ==> s.worker == Working(t, ops, LoadJar(first)) && AreIds(ids.value, first, ops)
    {
      hide Leads, Reachable;
      var sinkUp: bool := *;
      first := |ledger.audits|;
      if sinkUp {
        var inserted := ledger.InsertPendingAudits(t.job, ops, PayloadHash(t.student, ops));
        ids := Some(inserted);
      } else {
        ids := None;
      }
      Step(WorkerInsertAudits(sinkUp));
    }

    /** The audit sink is down: the job fails without any school contact. */
    method FailUnaudited(t: Ticket, ops: seq<Op>) returns (raised: bool)
      requires At(t, ops, SinkDown)
      modifies this`s, ledger
      ensures Valid() && s.worker.Idle?
      ensures !raised ==> EndsWith(LogOf(s, t.job), Closed)
    {
      hide Leads, Reachable;
      raised := Await();
      if raised {
        Crash();
        return;
      }
      WorkerLogExists(since, s);
      var written := ledger.FinishJob(t.job, Failed, s.now);
      Step(WorkerFail);
    }

    /** `_finalize`: outcomes and terminal status in one transaction. */
    method Finalize(t: Ticket, ops: seq<Op>, first: nat, updates: seq<Update>, status: Status) returns (raised: bool)
      requires At(t, ops, Close(first, updates, status)) && !Active(status)
      modifies this`s, ledger
      ensures Valid() && s.worker.Idle?
      ensures !raised ==> EndsWith(LogOf(s, t.job), Closed)
    {
      hide Leads, Reachable;
      raised := Await();
      if raised {
        Crash();
        return;
      }
      WorkerLogExists(since, s);
      ledger.ApplyAuditOutcomes(updates);
      var written := ledger.FinishJob(t.job, status, s.now);
      Step(WorkerClose);
    }

    /** `load_selcrs`; what the jar store answers is not decided here. */
    method LoadSelcrs(t: Ticket, ops: seq<Op>, step: Protocol.Step) returns (alive: bool)
      requires At(t, ops, step) && (step.LoadJar? || step.ReloadJar?)
      modifies this`s
      ensures Valid() && s.worker == Working(t, ops, AfterJar(ops, step, alive))
    {
      hide Apply, Leads, Reachable, AllRows;
      alive := *;
      JarIs(s, alive);
      Step(WorkerJar(alive));
    }

    /** `_current_status(…) == "running"`. */
    method StillRunning(t: Ticket, ops: seq<Op>, step: Protocol.Step) returns (running: bool)
      requires At(t, ops, step) && (step.CheckBeforeForm? || step.CheckBeforePost?)
      modifies this`s
      ensures Valid()
      ensures s.worker == Working(t, ops,
        if !running then Close(step.first, AllRows(step.first, |ops|, Superseded), Failed)
        else if step.CheckBeforeForm? then GetForm(step.first, 0)
        else SendPost(step.first, step.payload, step.rows, 0))
    {
      hide Leads, Reachable;
      WorkerLogExists(since, s);
      running := ledger.jobs[t.job].status.Running?;
      Step(WorkerCheckStatus);
    }

    /** `_transport_call` on the form: at most three tries. */
    method GetWriteForm(t: Ticket, ops: seq<Op>, first: nat) returns (form: Option<Page>, raised: bool)
      requires At(t, ops, GetForm(first, 0))
      modifies this`s, ledger
      ensures Valid() && (raised ==> s.worker.Idle?)
      ensures !raised ==> s.worker == Working(t, ops, AfterForm(t, ops, first, form))
    {
      hide Apply, Leads, Reachable, PayloadFor, AllRows;
      form, raised := None, false;
      var attempt := 0;
      while true
        invariant attempt < MAX_CALLS && At(t, ops, GetForm(first, attempt))
        decreases MAX_CALLS - attempt
      {
        GetIs(s);
        Step(WorkerGet);
        raised := Await();
        if raised {
          Crash();
          return;
        }
        form := *;
        FormIs(s, form);
        Step(WorkerForm(form));
        if form.Some? || attempt == TRANSPORT_RETRIES {
          return;
        }
        raised := Await();
        if raised {
          Crash();
          return;
        }
        attempt := attempt + 1;
      }
    }

    /** `_transport_call` on the submission: at most three tries; `retried` tells
        whether there was more than one. */
    method PostWrite(t: Ticket, ops: seq<Op>, first: nat, payload: Payload.Form, rows: nat)
      returns (reply: Option<Reply>, retried: bool, raised: bool)
      requires At(t, ops, SendPost(first, payload, rows, 0))
      modifies this`s, ledger
      ensures Valid() && (raised ==> s.worker.Idle?)
      ensures !raised ==> s.worker == Working(t, ops, AfterPost(ops, first, reply, retried))
    {
      hide Apply, Leads, Reachable, FirstUpdates, AllRows, Reconcile.AnyUnknown;
      reply, retried, raised := None, false, false;
      var attempt := 0;
      while true
        invariant attempt < MAX_CALLS && At(t, ops, SendPost(first, payload, rows, attempt))
        decreases MAX_CALLS - attempt
      {
        PostIs(s);
        Step(WorkerPost);
        raised := Await();
        if raised {
          Crash();
          return;
        }
        reply := *;
        AnswerIs(s, reply);
        Step(WorkerAnswer(reply));
        retried := attempt > 0;
        if reply.Some? || attempt == TRANSPORT_RETRIES {
          return;
        }
        raised := Await();
        if raised {
          Crash();
          return;
        }
        attempt := attempt + 1;
      }
    }

    /** `maybe_reconcile`, called after a retried post: the session is reloaded
        and slt_result asked once, only when some answer is about a duplicate. */
    method MaybeReconcile(t: Ticket, ops: seq<Op>, first: nat, updates: seq<Update>)
      returns (result: seq<Update>, raised: bool)
      requires At(t, ops,
        if Reconcile.AnyUnknown(updates) then ReloadJar(first, updates) else Close(first, updates, Done))
      requires |updates| == |ops|
      modifies this`s, ledger
      ensures Valid() && (raised ==> s.worker.Idle?)
      ensures !raised ==> s.worker == Working(t, ops, Close(first, result, Done))
    {
      hide Apply, Leads, Reachable, Reconcile.AnyUnknown, Reconcile.SettledBy;
      result, raised := updates, false;
      if !Reconcile.AnyUnknown(updates) {
        return;
      }
      raised := Await();
      if raised {
        Crash();
        return;
      }
      var alive := LoadSelcrs(t, ops, ReloadJar(first, updates));
      if !alive {
        return;
      }
      AskSltIs(s);
      Step(WorkerAskSlt);
      raised := Await();
      if raised {
        Crash();
        return;
      }
      var items: Option<seq<Reconcile.Item>> := *;
      SltIs(s, items);
      Step(WorkerSlt(items));
      match items
      case None =>
      case Some(list) =>
        result := Reconcile.ReconcileUpdates(updates, ops, list);
    }

    /** From the claim to the end of one execution. */
    method RunClaimed(t: Ticket, ops: seq<Op>) returns (raised: bool)
      requires At(t, ops, InsertAudits)
      modifies this`s, ledger
      ensures Valid() && s.worker.Idle?
      ensures !raised ==> EndsWith(LogOf(s, t.job), Closed)
    {
      hide Apply, Leads, Reachable, LogOf, EndsWith, AllRows, FirstUpdates, PayloadFor;
      raised := Await();
      if raised {
        Crash();
        return;
      }
      var first, ids := InsertPendingAudits(t, ops);
      if ids.None? {
        raised := FailUnaudited(t, ops);
        return;
      }
      raised := Await();
      if raised {
        Crash();
        return;
      }
      TerminalIsAll(ids.value, first, ops, StageExpired);
      TerminalIsAll(ids.value, first, ops, Superseded);
      var alive := LoadSelcrs(t, ops, Protocol.Step.LoadJar(first));
      if !alive {
        raised := Finalize(t, ops, first, TerminalUpdates(ids.value, StageExpired), Failed);
        return;
      }
      raised := Await();
      if raised {
        Crash();
        return;
      }
      var running := StillRunning(t, ops, CheckBeforeForm(first));
      if !running {
        raised := Finalize(t, ops, first, TerminalUpdates(ids.value, Superseded), Failed);
        return;
      }
      raised := SubmitForm(t, ops, first, ids.value);
    }

    /** The form read: what is posted, or why nothing can be. */
    method SubmitForm(t: Ticket, ops: seq<Op>, first: nat, ids: seq<nat>) returns (raised: bool)
      requires At(t, ops, GetForm(first, 0)) && AreIds(ids, first, ops)
      modifies this`s, ledger
      ensures Valid() && s.worker.Idle?
      ensures !raised ==> EndsWith(LogOf(s, t.job), Closed)
    {
      hide Apply, Leads, Reachable, LogOf, EndsWith, AllRows, PayloadFor, AreIds, TerminalUpdates;
      forall outcome ensures TerminalUpdates(ids, outcome) == AllRows(first, |ops|, outcome) {
        TerminalIsAll(ids, first, ops, outcome);
      }
      var form, formRaised := GetWriteForm(t, ops, first);
      if formRaised {
        return true;
      }
      if form.None? {
        raised := Finalize(t, ops, first, TerminalUpdates(ids, TransportFailed), Failed);
        return;
      }
      if form.value.bounce {
        raised := Finalize(t, ops, first, TerminalUpdates(ids, StageExpired), Failed);
        return;
      }
      var payload := BuildPayload(ops, t.variant, form.value);
      if payload.None? {
        raised := Finalize(t, ops, first, TerminalUpdates(ids, ParseFailed), Failed);
        return;
      }
      raised := Await();
      if raised {
        Crash();
        return;
      }
      var running := StillRunning(t, ops, CheckBeforePost(first, payload.value.0, payload.value.1));
      if !running {
        raised := Finalize(t, ops, first, TerminalUpdates(ids, Superseded), Failed);
        return;
      }
      raised := SubmitPost(t, ops, first, ids, payload.value.0, payload.value.1);
    }

    /** The post and what the school says to it. */
    method SubmitPost(t: Ticket, ops: seq<Op>, first: nat, ids: seq<nat>, payload: Payload.Form, rows: nat)
      returns (raised: bool)
      requires At(t, ops, SendPost(first, payload, rows, 0)) && AreIds(ids, first, ops)
      modifies this`s, ledger
      ensures Valid() && s.worker.Idle?
      ensures !raised ==> EndsWith(LogOf(s, t.job), Closed)
    {
      hide Apply, Leads, Reachable, LogOf, EndsWith, AllRows, AreIds, TerminalUpdates, FirstUpdates,
        Reconcile.AnyUnknown;
      TerminalIsAll(ids, first, ops, TransportFailed);
      TerminalIsAll(ids, first, ops, StageExpired);
      var reply, retried, postRaised := PostWrite(t, ops, first, payload, rows);
      if postRaised {
        return true;
      }
      if reply.None? {
        raised := Finalize(t, ops, first, TerminalUpdates(ids, TransportFailed), Failed);
        return;
      }
      if reply.value.LoginPage? {
        raised := Finalize(t, ops, first, TerminalUpdates(ids, StageExpired), Failed);
        return;
      }
      var updates := BuildUpdates(ids, ops, reply.value.verdicts, retried, first);
      UpdatesLength(first, ops, reply.value.verdicts, retried);
      if retried {
        updates, raised := MaybeReconcile(t, ops, first, updates);
        if raised {
          return;
        }
      }
      raised := Finalize(t, ops, first, updates, Done);
    }

    /** `execute_ticket`. A normal return leaves the job's history as it was, or
        closed. */
    method ExecuteTicket(t: Ticket) returns (raised: bool)
      requires Valid() && s.worker == Popped(t)
      modifies this`s, ledger
      ensures Valid() && s.worker.Idle?
      ensures old(since == s) ==> Leads(old(s), s)
      ensures !raised ==> LogOf(s, t.job) == LogOf(old(s), t.job) || EndsWith(LogOf(s, t.job), Closed)
    {
      hide Apply, Leads, Reachable, EndsWith;
      WorkerLogExists(since, s);
      ReadClockIs(s);
      var parsed := ParseCanonicalSegments(t.segments);
      if parsed.Err? {
        var written := ledger.FinishJob(t.job, Failed, s.now);
        Step(WorkerReadClock);
        return false;
      }
      var ops := parsed.value;
      var cutoff := s.now - s.dwell;
      Step(WorkerReadClock);
      raised := Await();
      if raised {
        Crash();
        return;
      }
      var claimed := ClaimJob(t, ops, cutoff);
      if claimed {
        raised := RunClaimed(t, ops);
      } else {
        raised := CancelUnclaimed(t);
      }
    }

    /** `sweep_once`: afterwards no active job is older than the cutoff. */
    method SweepOnce() returns (cancelled: nat, raised: bool)
      requires Valid() && s.worker.Idle?
      modifies this`s, ledger
      ensures Valid() && s.worker.Idle?
      ensures old(since == s) ==> Leads(old(s), s)
      ensures !raised ==> forall j ::
        0 <= j < |s.jobs| && Active(s.jobs[j].status) ==> s.jobs[j].createdAt >= old(s.now - s.dwell)
    {
      hide Apply, Leads, Reachable;
      cancelled := 0;
      var cutoff := s.now - s.dwell;
      SweepClockIs(s);
      Step(WorkerSweepClock);
      raised := Await();
      if raised {
        Crash();
        return;
      }
      cancelled := ledger.CancelStaleActiveJobs(cutoff, s.now);
      SweepIs(s);
      Step(WorkerSweep);
    }

    /** The pop takes from the end the producer pushes to: newest ticket first. */
    method PopNewest() returns (t: Option<Ticket>)
      requires Valid() && s.worker.Idle?
      modifies this`s
      ensures Valid()
      ensures t.None? <==> |old(s.queue)| == 0
      ensures t.None? ==> s == old(s)
      ensures t.Some? ==> s.worker == Popped(t.value) && old(s.queue) == s.queue + [t.value]
    {
      hide Apply, Leads, Reachable;
      if |s.queue| == 0 {
        return None;
      }
      t := Some(s.queue[|s.queue| - 1]);
      PopIs(s, |s.queue| - 1);
      Step(PopTicket(|s.queue| - 1));
    }

    /** `write_queue_loop`, any number of rounds. A raising ticket is abandoned, a
        raising sweep ends the loop; the first round always sweeps. */
    method WriteQueueLoop(rounds: nat, interval: real) returns (sweeps: nat)
      requires Valid() && s.worker.Idle?
      modifies this`s, ledger
      ensures Valid() && s.worker.Idle?
      ensures old(since == s) ==> Leads(old(s), s)
      ensures rounds > 0 ==> 1 <= sweeps <= rounds
    {
      hide Apply, Leads, Reachable;
      sweeps := 0;
      var clock, nextSweep := 0.0, 0.0;
      for round := 0 to rounds
        invariant Valid() && s.worker.Idle?
        invariant sweeps <= round && (round > 0 ==> sweeps >= 1)
        invariant clock >= 0.0 && (round == 0 ==> nextSweep == 0.0)
      {
        var timedOut := Await();
        if !timedOut {
          var t := PopNewest();
          if t.Some? {
            var crashed := ExecuteTicket(t.value);
          }
        }
        var reading: real := *;
        clock := if reading < clock then clock else reading;
        if clock >= nextSweep {
          sweeps := sweeps + 1;
          var cancelled, raised := SweepOnce();
          if raised {
            return;
          }
          nextSweep := clock + interval;
        }
      }
    }

    // ---------- the web side ----------

    /** `store_confirm`. */
    method StoreConfirm(token: Token, record: Record, ttl: nat)
      requires Valid()
      modifies this`s
      ensures Valid() && s == Mint(old(s), token, record, ttl)
      ensures s.confirms == old(s.confirms)[token := Parked(record, old(s).now + ttl)] && s.now == old(s).now
    {
      hide Apply, Leads, Reachable;
      MintIs(s, token, record, ttl);
      Step(MintToken(token, record, ttl));
    }

    /** `record_successful_login`: upsert and supersede in one transaction. */
    method RecordSuccessfulLogin(student: string) returns (superseded: nat)
      requires Valid()
      modifies this`s, ledger
      ensures Valid() && student in s.students
      ensures forall j :: 0 <= j < |s.jobs| && s.jobs[j].student == student ==> !Active(s.jobs[j].status)
      ensures superseded == Count(old(s).jobs, ActiveOf(student))
    {
      hide Apply, Leads, Reachable;
      superseded := ledger.RecordSuccessfulLogin(student, s.now);
      LoginIs(s, student);
      Step(Login(student));
    }

    /** An await of submit handler `h`: everyone else, the worker included, takes
        any number of steps, and the request may die. */
    method Yield(h: nat) returns (dropped: bool)
      requires Valid() && h < |s.handlers|
      modifies this`s, ledger
      ensures Valid() && HandlerKept(old(s), s, h)
    {
      hide Apply, Run, Leads, Reachable;
      var actions: seq<Action> := *;
      dropped := *;
      if !(forall a :: a in actions ==> !Names(a, h)) {
        actions := [];
      }
      LeadsReachable(since, s);
      OthersRun(s, actions, h);
      LeadsRun(s, actions);
      LeadsTransitive(since, s, Run(s, actions));
      s := Run(s, actions);
      ledger.jobs, ledger.audits := s.jobs, s.audits;
    }

    /** The insert is guarded by the unique index; the ticket goes out only after
        the row is committed. */
    method InsertAndPush(h: nat, token: Token, record: Record, student: string, session: string, ops: seq<Op>)
      returns (answer: Response)
      requires Valid() && h < |s.handlers| && s.handlers[h] == Checked(token, record, student, session, ops)
      modifies this`s, ledger
      ensures Valid()
      ensures answer.Accepted? ==> Enqueued(s, answer.job, answer.hash, token, record, student, session)
      ensures answer.Duplicate? ==> HasActive(s.jobs, PayloadHash(student, ops))
      ensures answer.Accepted? || answer.Duplicate? || answer.Dropped?
    {
      hide Apply, Leads, Reachable, TicketOk, HasActive;
      var hash := PayloadHash(student, ops);
      InsertIs(s, h);
      var id := ledger.CreateQueuedJob(student, ops, hash, s.now);
      OneOriginPerJob(since, s);
      Step(InsertJob(h));
      if id.None? {
        return Duplicate;
      }
      var dropped := Yield(h);
      if dropped {
        AbandonIs(s, h);
        Step(Abandon(h));
        return Dropped;
      }
      PushIs(s, h);
      Step(PushTicket(h));
      OneOriginPerJob(since, s);
      return Response.Accepted(id.value, hash);
    }

    /** Re-derive the batch, look up the student and any active job of the hash. */
    method CheckSubmission(h: nat, token: Token, record: Record, student: string, session: string)
      returns (refusal: Option<Response>, ops: seq<Op>)
      requires Valid() && h < |s.handlers| && s.handlers[h] == Verified(token, record, student, session)
      modifies this`s
      ensures Valid()
      ensures refusal.Some? ==> !refusal.value.Accepted? && Explained(s, refusal.value, record, student)
      ensures refusal.None? <==>
        Parse(record.segments).Ok? && student in s.students
          && !HasActive(s.jobs, PayloadHash(student, Parse(record.segments).value))
      ensures refusal.None? ==> Parse(record.segments) == Ok(ops) && h < |s.handlers|
      ensures refusal.None? ==> s.handlers[h] == Checked(token, record, student, session, ops)
    {
      hide Apply, Leads, Reachable, HasActive, PayloadHash;
      CheckIs(s, h);
      var parsed := ParseCanonicalSegments(record.segments);
      refusal, ops := None, [];
      if parsed.Err? {
        refusal := Some(UnknownToken);
      } else {
        ops := parsed.value;
        if student !in s.students {
          refusal := Some(IdentityMissing);
        } else {
          var existing := ledger.FindActiveJobByHash(PayloadHash(student, ops));
          if existing.Some? {
            refusal := Some(Duplicate);
          }
        }
      }
      Step(CheckRecord(h));
    }

    /** The rest of a submit once the school has accepted the password. */
    method SubmitVerified(h: nat, token: Token, record: Record, student: string, session: string)
      returns (answer: Response)
      requires Valid() && h < |s.handlers| && s.handlers[h] == Verified(token, record, student, session)
      modifies this`s, ledger
      ensures Valid()
      ensures answer.Accepted? ==> Enqueued(s, answer.job, answer.hash, token, record, student, session)
      ensures Explained(s, answer, record, student)
    {
      hide Apply, Leads, Reachable, TicketOk, HasActive, Enqueued, PayloadHash, Evolves, Parse, Supersede;
      var refusal, ops := CheckSubmission(h, token, record, student, session);
      if refusal.Some? {
        return refusal.value;
      }
      var dropped := Yield(h);
      if dropped {
        AbandonIs(s, h);
        Step(Abandon(h));
        return Dropped;
      }
      answer := InsertAndPush(h, token, record, student, session, ops);
    }

    /** `post_write_submit`. Accepted means: this token's record, still of this
        student, became one new job whose ticket is now in the queue. */
    method PostWriteSubmit(token: Option<Token>, student: string, session: string) returns (answer: Response)
      requires Valid()
      modifies this`s, ledger
      ensures Valid()
      ensures old(since == s) ==> Leads(old(s), s)
      ensures answer.Accepted? ==>
        && token.Some? && LiveToken(old(s), token.value, student)
        && Enqueued(s, answer.job, answer.hash, token.value, old(s.confirms)[token.value].record, student, session)
      ensures answer.TokenRequired? <==> token.None?
      ensures token.Some? ==>
        if LiveToken(old(s), token.value, student) then
          answer.Unverified? || Explained(s, answer, old(s.confirms)[token.value].record, student)
        else answer.UnknownToken? && s == Take(old(s), token.value, student, session)
    {
      hide Apply, Leads, Reachable, TicketOk;
      if token.None? {
        return TokenRequired;
      }
      var parked := if token.value in s.confirms then Some(s.confirms[token.value]) else None;
      TakeIs(s, token.value, student, session);
      Step(TakeToken(token.value, student, session));
      if parked.None? || s.now >= parked.value.expires || parked.value.record.student != student {
        return UnknownToken;
      }
      var h := |s.handlers| - 1;
      var dropped := Yield(h);
      if dropped {
        AbandonIs(s, h);
        Step(Abandon(h));
        return Dropped;
      }
      var accepted: bool := *;
      VerifyIs(s, h, accepted);
      Step(VerifyPassword(h, accepted));
      if !accepted {
        return Unverified;
      }
      dropped := Yield(h);
      if dropped {
        AbandonIs(s, h);
        Step(Abandon(h));
        return Dropped;
      }
      answer := SubmitVerified(h, token.value, parked.value.record, student, session);
    }
  }

  /** The job exists under this token, hash and student, and the ticket pushed
      last names it and re-derives its batch. */
  ghost predicate Enqueued(s: State, job: nat, hash: Hash, token: Token, record: Record, student: string,
        session: string)
  {
    && |s.queue| > 0 && TicketOk(s.jobs, s.queue[|s.queue| - 1])
    && s.queue[|s.queue| - 1] == Ticket(job, session, student, record.segments, record.variant, record.formUrl)
    && job < |s.jobs| == |s.origins| && s.origins[job] == token
    && s.jobs[job].student == student && s.jobs[job].payloadHash == hash
  }

  predicate LiveToken(s: State, token: Token, student: string) {
    token in s.confirms && s.now < s.confirms[token].expires && s.confirms[token].record.student == student
  }

  /** Each refusal of a live token tells the truth about the site. */
  predicate Explained(s: State, answer: Response, record: Record, student: string) {
    match answer
    case TokenRequired => false
    case UnknownToken => Parse(record.segments).Err?
    case Unverified => false
    case IdentityMissing => student !in s.students
    case Duplicate => Parse(record.segments).Ok?
      && HasActive(s.jobs, PayloadHash(student, Parse(record.segments).value))
    case Accepted(_, _) => Parse(record.segments).Ok?
    case Dropped => true
  }

  datatype Response =
    | TokenRequired
    | UnknownToken
    | Unverified
    | IdentityMissing
    | Duplicate
    | Accepted(job: nat, hash: Hash)
    | Dropped

  lemma UpdatesLength(first: nat, ops: seq<Op>, v: Verdicts, retried: bool)
    ensures |FirstUpdates(first, ops, v, retried)| == |ops|
  {
  }

  /** The builder of the variant over the scraped inputs, with `send` defaulted
      and the injected step; nothing when the form has no action, the variant is
      unknown or the batch does not fit. */
  method BuildPayload(ops: seq<Op>, variant: string, page: Page) returns (payload: Option<(Payload.Form, nat)>)
    ensures payload == PayloadFor(ops, variant, page)
    ensures Posts(payload, ops, variant, page)
  {
    PayloadForPosts(ops, variant, page);
    if page.action.None? || variant !in {VARIANT_SSFORM, VARIANT_STAGE5} {
      return None;
    }
    var hidden := page.hidden;
    if page.send.Some? && Payload.SEND_NAME !in hidden {
      hidden := hidden[Payload.SEND_NAME := page.send.value];
    }
    var default := DefaultRows(variant);
    var built := Payload.Build(ops, hidden, default);
    if built.Err? {
      return None;
    }
    var form := built.value;
    if page.step.Some? {
      form := form["step" := page.step.value];
    }
    return Some((form, Payload.RowsTotal(hidden, default)));
  }

  /** `_terminal_updates`. */
  function TerminalUpdates(ids: seq<nat>, outcome: Outcome): seq<Update> {
    seq(|ids|, k requires 0 <= k < |ids| => Update(ids[k], outcome, None))
  }

  lemma TerminalIsAll(ids: seq<nat>, first: nat, ops: seq<Op>, outcome: Outcome)
    requires AreIds(ids, first, ops)
    ensures TerminalUpdates(ids, outcome) == AllRows(first, |ops|, outcome)
  {
  }

  /** The zip of ids and ops; a retried duplicate-like refusal is not believed. */
  method BuildUpdates(ids: seq<nat>, ops: seq<Op>, verdicts: Verdicts, retried: bool, ghost first: nat)
    returns (updates: seq<Update>)
    requires AreIds(ids, first, ops)
    ensures updates == FirstUpdates(first, ops, verdicts, retried)
    ensures forall k :: 0 <= k < |ops| ==>
      && updates[k].audit == ids[k]
      && (ops[k].code !in verdicts ==> updates[k].outcome == ParseFailed && updates[k].schoolMsg == None)
      && (ops[k].code in verdicts ==>
            var verdict := verdicts[ops[k].code];
            && updates[k].schoolMsg == verdict.schoolMsg
            && updates[k].outcome ==
                match verdict.kind
                case Accepted => Success
                case Unparsed => ParseFailed
                case Refused => if retried && verdict.duplicateLike then UnknownReconciled else Rejected)
  {
    updates := [];
    for k := 0 to |ops|
      invariant updates == FirstUpdates(first, ops, verdicts, retried)[..k]
    {
      var verdict := VerdictOf(verdicts, ops[k].code);
      var outcome := match verdict.kind case Accepted => Success case Unparsed => ParseFailed case Refused => Rejected;
      if outcome.Rejected? && retried && verdict.duplicateLike {
        outcome := UnknownReconciled;
      }
      updates := updates + [Update(ids[k], outcome, verdict.schoolMsg)];
    }
  }

  function AfterJar(ops: seq<Op>, step: Protocol.Step, alive: bool): Protocol.Step
    requires step.LoadJar? || step.ReloadJar?
  {
    if step.LoadJar? then
      if alive then CheckBeforeForm(step.first) else Close(step.first, AllRows(step.first, |ops|, StageExpired), Failed)
    else if alive then AskSlt(step.first, step.updates) else Close(step.first, step.updates, Done)
  }

  function AfterForm(t: Ticket, ops: seq<Op>, first: nat, form: Option<Page>): Protocol.Step {
    match form
    case None => Close(first, AllRows(first, |ops|, TransportFailed), Failed)
    case Some(page) =>
      if page.bounce then Close(first, AllRows(first, |ops|, StageExpired), Failed)
      else match PayloadFor(ops, t.variant, page)
        case None => Close(first, AllRows(first, |ops|, ParseFailed), Failed)
        case Some((payload, rows)) => CheckBeforePost(first, payload, rows)
  }

  function AfterPost(ops: seq<Op>, first: nat, reply: Option<Reply>, retried: bool): Protocol.Step {
    match reply
    case None => Close(first, AllRows(first, |ops|, TransportFailed), Failed)
    case Some(LoginPage) => Close(first, AllRows(first, |ops|, StageExpired), Failed)
    case Some(Classified(v)) =>
      var updates := FirstUpdates(first, ops, v, retried);
      if retried && Reconcile.AnyUnknown(updates) then Protocol.Step.ReloadJar(first, updates)
      else Close(first, updates, Done)
  }

  predicate AreIds(ids: seq<nat>, first: nat, ops: seq<Op>) {
    |ids| == |ops| && forall k :: 0 <= k < |ids| ==> ids[k] == first + k
  }

  /** The action moves submit handler `h`. */
  predicate Names(a: Action, h: nat) {
    (a.VerifyPassword? || a.CheckRecord? || a.InsertJob? || a.PushTicket? || a.Abandon?) && a.h == h
  }

  /** What handler `h` keeps while everyone else runs: its own place, and the
      identity of every job. */
  ghost predicate HandlerKept(a: State, b: State, h: nat) {
    && h < |a.handlers| <= |b.handlers| && b.handlers[h] == a.handlers[h]
    && |a.origins| <= |b.origins| && (forall j :: 0 <= j < |a.origins| ==> b.origins[j] == a.origins[j])
    && Evolves(a.jobs, b.jobs)
  }

  lemma OthersStep(s: State, a: Action, h: nat)
    requires Inv(s) && h < |s.handlers| && !Names(a, h)
    ensures HandlerKept(s, Apply(s, a), h)
  {
    hide Inv, Evolves, Apply, Names;
    StepEvolves(s, a);
    OthersLeave(s, a, h);
  }

  /** The worker touches neither handlers nor tokens. */
  lemma WorkerLeavesHandlers(s: State, a: Action)
    requires !Foreign(a)
    ensures Apply(s, a).handlers == s.handlers && Apply(s, a).origins == s.origins
  {
    hide PayloadFor, FirstUpdates, AllRows, Reconcile.AnyUnknown, Reconcile.Reconciled, ApplyOutcomes, PendingRows,
      Finish, CancelStale;
  }

  lemma OthersLeave(s: State, a: Action, h: nat)
    requires h < |s.handlers| && !Names(a, h)
    ensures var t := Apply(s, a);
      && |s.handlers| <= |t.handlers| && t.handlers[h] == s.handlers[h]
      && |s.origins| <= |t.origins| && forall j :: 0 <= j < |s.origins| ==> t.origins[j] == s.origins[j]
  {
    hide Apply;
    if !Foreign(a) {
      WorkerLeavesHandlers(s, a);
    } else {
      ForeignLeaves(s, a, h);
    }
  }

  lemma ForeignLeaves(s: State, a: Action, h: nat)
    requires h < |s.handlers| && !Names(a, h) && Foreign(a)
    ensures var t := Apply(s, a);
      && |s.handlers| <= |t.handlers| && t.handlers[h] == s.handlers[h]
      && |s.origins| <= |t.origins| && forall j :: 0 <= j < |s.origins| ==> t.origins[j] == s.origins[j]
  {
    hide Supersede, Parse, PayloadHash, HasActive;
  }

  lemma {:induction false} OthersRun(s: State, actions: seq<Action>, h: nat)
    requires Reachable(s) && h < |s.handlers| && forall a :: a in actions ==> !Names(a, h)
    ensures HandlerKept(s, Run(s, actions), h)
  {
    hide Apply, Reachable, Names, Inv;
    ReachableOk(s);
    if actions == [] {
    } else {
      var front, last := actions[..|actions| - 1], actions[|actions| - 1];
      OthersRun(s, front, h);
      RunKeepsInv(s, front);
      OthersStep(Run(s, front), last, h);
      EvolvesTransitive(s.jobs, Run(s, front).jobs, Run(s, actions).jobs);
    }
  }

  lemma OneOriginPerJob(since: State, s: State)
    requires Reachable(since) && Leads(since, s)
    ensures |s.origins| == |s.jobs|
    ensures forall i :: 0 <= i < |s.queue| ==> TicketOk(s.jobs, s.queue[i])
  {
    LeadsReachable(since, s);
    ReachableOk(s);
  }

  /** A reachable worker's job exists and has a log. */
  lemma WorkerLogExists(since: State, s: State)
    requires Reachable(since) && Leads(since, s) && !s.worker.Idle? && !s.worker.Sweeping?
    ensures s.worker.t.job < |s.jobs| == |s.logs|
  {
    LeadsReachable(since, s);
    ReachableOk(s);
  }
}
