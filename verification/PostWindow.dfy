/** When a job that has already ended may still be posted: the window between the
    last status check and the post, and a run that reaches it. */
module PostWindow {
  import opened Wrappers
  import opened Ops
  import opened Segments
  import opened Ledger
  import opened Protocol
  import opened ProtocolInvariant
  import opened ProtocolTheorems
  import Reconcile
  import Payload

  /** The execution of `j` is between its last status check and a post: the first
      call is about to be sent, or a call is out and may be followed by another. */
  predicate MayPost(s: State, j: nat) {
    && Busy(s, j)
    && (s.worker.step.SendPost? || (s.worker.step.AwaitPost? && s.worker.step.tried < MAX_CALLS))
  }

  // ---------- no post outside that window ----------

  /** One step adds to a job's history at most one event. */
  predicate GrowsWithoutPost(before: seq<Event>, after: seq<Event>) {
    after == before || (|after| == |before| + 1 && after[..|before|] == before && !after[|before|].Post?)
  }

  lemma EndedStep(s: State, a: Action, j: nat)
    requires j < |s.jobs| == |s.logs| && !Active(s.jobs[j].status) && !MayPost(s, j)
    ensures !MayPost(Apply(s, a), j) && GrowsWithoutPost(LogOf(s, j), LogOf(Apply(s, a), j))
  {
    hide Apply;
    if Foreign(a) {
      ForeignLeavesLogs(s, a, j);
    } else if a.WorkerForm? || a.WorkerAnswer? || a.WorkerJar? || a.WorkerCheckStatus? || a.WorkerSlt? {
      EndedDecision(s, a, j);
    } else {
      EndedMove(s, a, j);
    }
  }

  lemma ForeignLeavesLogs(s: State, a: Action, j: nat)
    requires Foreign(a) && j < |s.logs|
    ensures Apply(s, a).worker == s.worker && LogOf(Apply(s, a), j) == s.logs[j]
  {
  }

  lemma EndedDecision(s: State, a: Action, j: nat)
    requires j < |s.jobs| == |s.logs| && !Active(s.jobs[j].status) && !MayPost(s, j)
    requires a.WorkerForm? || a.WorkerAnswer? || a.WorkerJar? || a.WorkerCheckStatus? || a.WorkerSlt?
    ensures !MayPost(Apply(s, a), j) && GrowsWithoutPost(LogOf(s, j), LogOf(Apply(s, a), j))
  {
    hide MayPost, GrowsWithoutPost, GotForm, GotAnswer, JarAnswer, CheckStatus, GotSlt;
    match a
    case WorkerForm(page) => EndedForm(s, page, j);
    case WorkerAnswer(reply) => EndedAnswer(s, reply, j);
    case WorkerJar(alive) => EndedJar(s, alive, j);
    case WorkerCheckStatus => EndedCheck(s, j);
    case WorkerSlt(items) => EndedSlt(s, items, j);
  }

  lemma EndedForm(s: State, page: Option<Page>, j: nat)
    requires j < |s.jobs| == |s.logs| && !MayPost(s, j)
    ensures !MayPost(GotForm(s, page), j) && GrowsWithoutPost(LogOf(s, j), LogOf(GotForm(s, page), j))
  {
    hide PayloadFor, AllRows;
  }

  lemma EndedAnswer(s: State, reply: Option<Reply>, j: nat)
    requires j < |s.jobs| == |s.logs| && !MayPost(s, j)
    ensures !MayPost(GotAnswer(s, reply), j) && GrowsWithoutPost(LogOf(s, j), LogOf(GotAnswer(s, reply), j))
  {
    hide FirstUpdates, AllRows, Reconcile.AnyUnknown;
  }

  lemma EndedJar(s: State, alive: bool, j: nat)
    requires j < |s.jobs| == |s.logs| && !MayPost(s, j)
    ensures !MayPost(JarAnswer(s, alive), j) && GrowsWithoutPost(LogOf(s, j), LogOf(JarAnswer(s, alive), j))
  {
    hide AllRows;
  }

  lemma EndedCheck(s: State, j: nat)
    requires j < |s.jobs| == |s.logs| && !Active(s.jobs[j].status) && !MayPost(s, j)
    ensures !MayPost(CheckStatus(s), j) && GrowsWithoutPost(LogOf(s, j), LogOf(CheckStatus(s), j))
  {
    hide AllRows;
  }

  lemma EndedSlt(s: State, items: Option<seq<Reconcile.Item>>, j: nat)
    requires j < |s.jobs| == |s.logs| && !MayPost(s, j)
    ensures !MayPost(GotSlt(s, items), j) && GrowsWithoutPost(LogOf(s, j), LogOf(GotSlt(s, items), j))
  {
    hide Reconcile.Reconciled;
  }

  lemma EndedMove(s: State, a: Action, j: nat)
    requires j < |s.jobs| == |s.logs| && !Active(s.jobs[j].status) && !MayPost(s, j)
    requires !Foreign(a) && !a.WorkerForm? && !a.WorkerAnswer? && !a.WorkerJar? && !a.WorkerCheckStatus?
    requires !a.WorkerSlt?
    ensures !MayPost(Apply(s, a), j) && GrowsWithoutPost(LogOf(s, j), LogOf(Apply(s, a), j))
  {
    hide ApplyOutcomes, PendingRows, Finish, CancelStale;
  }

  lemma PostsSame(before: seq<Event>, after: seq<Event>)
    requires GrowsWithoutPost(before, after)
    ensures Num(after, POST) == Num(before, POST)
  {
    if after != before {
      NumSnoc(before, after[|before|]);
      assert after == before + [after[|before|]];
    }
  }

  /** A job that ended outside the window is never posted from then on, whatever
      anybody does. */
  lemma {:induction false} EndedOutsideIsNeverPosted(s: State, actions: seq<Action>, j: nat)
    requires Reachable(s) && j < |s.jobs| && !Active(s.jobs[j].status) && !MayPost(s, j)
    ensures Num(LogOf(Run(s, actions), j), POST) == Num(LogOf(s, j), POST)
    ensures !MayPost(Run(s, actions), j)
  {
    hide Apply, Reachable, Inv, MayPost, LogOf, GrowsWithoutPost;
    if actions != [] {
      var front, last := actions[..|actions| - 1], actions[|actions| - 1];
      var t := Run(s, front);
      EndedOutsideIsNeverPosted(s, front, j);
      TerminalIsAbsorbing(s, front, j);
      ReachableOk(s);
      RunKeepsInv(s, front);
      LogsMatchJobs(t);
      EndedStep(t, last, j);
      PostsSame(LogOf(t, j), LogOf(Apply(t, last), j));
    }
  }

  lemma LogsMatchJobs(s: State)
    requires Inv(s)
    ensures |s.jobs| == |s.logs|
  {
  }

  // ---------- and a post inside it ----------

  /** What makes the next post go out: nothing more, or the loss of the call that
      is out. */
  function NextPost(s: State): seq<Action> {
    if s.worker.Working? && s.worker.step.SendPost? then [WorkerPost] else [WorkerAnswer(None), WorkerPost]
  }

  lemma RunOne(s: State, a: Action)
    ensures Run(s, [a]) == Apply(s, a)
  {
    assert Run(s, [a][..0]) == s;
  }

  lemma RunSnoc(s: State, actions: seq<Action>, a: Action)
    ensures Run(s, actions + [a]) == Apply(Run(s, actions), a)
  {
    assert (actions + [a])[..|actions|] == actions;
  }

  lemma InsideIsPosted(s: State, j: nat)
    requires j < |s.logs| && MayPost(s, j)
    ensures Num(LogOf(Run(s, NextPost(s)), j), POST) == Num(LogOf(s, j), POST) + 1
  {
    hide Apply;
    var asked := s;
    if s.worker.step.SendPost? {
      RunOne(s, WorkerPost);
    } else {
      asked := Apply(s, WorkerAnswer(None));
      AnswerIs(s, None);
      RunOne(s, WorkerAnswer(None));
      RunSnoc(s, [WorkerAnswer(None)], WorkerPost);
    }
    PostIs(asked);
    NumSnoc(s.logs[j], Post(s.worker.step.payload, s.worker.step.rows));
  }

  /** A job that has ended may still be posted exactly in the window: some
      continuation posts it if and only if a call is about to be sent, or one is
      out and is not the last. */
  lemma EndedIsPostedExactlyInTheWindow(s: State, j: nat)
    requires Reachable(s) && j < |s.jobs| && !Active(s.jobs[j].status)
    ensures (exists actions: seq<Action> :: Num(LogOf(Run(s, actions), j), POST) > Num(LogOf(s, j), POST))
      <==> MayPost(s, j)
  {
    hide Apply, Reachable, Inv, MayPost, LogOf, Run;
    if MayPost(s, j) {
      ReachableOk(s);
      LogsMatchJobs(s);
      InsideIsPosted(s, j);
    } else {
      forall actions: seq<Action>
        ensures Num(LogOf(Run(s, actions), j), POST) == Num(LogOf(s, j), POST)
      {
        EndedOutsideIsNeverPosted(s, actions, j);
      }
    }
  }

  // ---------- a run into the window ----------

  /** A student logs in, previews and confirms. */
  function Confirming(token: Token, record: Record, ttl: nat, session: string): seq<Action> {
    [Login(record.student), MintToken(token, record, ttl), TakeToken(token, record.student, session),
     VerifyPassword(0, true)]
  }

  /** The handler checks the record, inserts the job and pushes the ticket. */
  function Placing(): seq<Action> {
    [CheckRecord(0), InsertJob(0), PushTicket(0)]
  }

  function Submission(token: Token, record: Record, ttl: nat, session: string): seq<Action> {
    Confirming(token, record, ttl, session) + Placing()
  }

  /** The worker takes the ticket and inserts its rows. */
  function Claiming(): seq<Action> {
    [PopTicket(0), WorkerReadClock, WorkerClaim, WorkerInsertAudits(true)]
  }

  /** It reads the form, up to its first post. */
  function Reading(page: Page): seq<Action> {
    [WorkerJar(true), WorkerCheckStatus, WorkerGet, WorkerForm(Some(page)), WorkerCheckStatus]
  }

  function Execution(page: Page): seq<Action> {
    Claiming() + Reading(page)
  }

  lemma {:induction false} RunConcat(s: State, a: seq<Action>, b: seq<Action>)
    ensures Run(s, a + b) == Run(Run(s, a), b)
    decreases |b|
  {
    hide Apply;
    if b == [] {
      assert a + b == a;
    } else {
      RunConcat(s, a, b[..|b| - 1]);
      assert (a + b)[..|a + b| - 1] == a + b[..|b| - 1];
    }
  }

  /** Where `s` is after the first `k` actions. */
  function After(s: State, actions: seq<Action>, k: nat): State
    requires k <= |actions|
  {
    Run(s, actions[..k])
  }

  lemma NextIs(s: State, actions: seq<Action>, k: nat)
    requires k < |actions|
    ensures After(s, actions, k + 1) == Apply(After(s, actions, k), actions[k])
  {
    RunSnoc(s, actions[..k], actions[k]);
    assert actions[..k + 1] == actions[..k] + [actions[k]];
  }

  lemma AfterAll(s: State, actions: seq<Action>)
    ensures After(s, actions, 0) == s && After(s, actions, |actions|) == Run(s, actions)
  {
    assert actions[..|actions|] == actions;
  }

  lemma ConfirmingRun(now: int, dwell: nat, token: Token, record: Record, ttl: nat, session: string)
    requires ttl > 0
    ensures var start := Initial(now, dwell);
      var after := Run(start, Confirming(token, record, ttl, session));
      && after.handlers == [Verified(token, record, record.student, session)] && record.student in after.students
      && after == start.(handlers := after.handlers, students := after.students, mints := after.mints)
  {
    hide Apply, Run, After;
    var s, actions := Initial(now, dwell), Confirming(token, record, ttl, session);
    AfterAll(s, actions);
    NextIs(s, actions, 0);
    LoginIs(After(s, actions, 0), record.student);
    NextIs(s, actions, 1);
    MintIs(After(s, actions, 1), token, record, ttl);
    NextIs(s, actions, 2);
    TakeIs(After(s, actions, 2), token, record.student, session);
    NextIs(s, actions, 3);
    VerifyIs(After(s, actions, 3), 0, true);
  }

  function TicketOf(record: Record, session: string): Ticket {
    Ticket(0, session, record.student, record.segments, record.variant, record.formUrl)
  }

  lemma PlacingRun(s: State, token: Token, record: Record, session: string)
    requires s.handlers == [Verified(token, record, record.student, session)] && record.student in s.students
    requires s.jobs == [] && s.logs == [] && s.queue == [] && Parse(record.segments).Ok?
    ensures var ops := Parse(record.segments).value;
      var after := Run(s, Placing());
      && after.queue == [TicketOf(record, session)] && after.logs == [[]]
      && after.jobs == [NewJob(record.student, ops, PayloadHash(record.student, ops), s.now)]
      && after.now == s.now && after.dwell == s.dwell && after.worker == s.worker
  {
    hide Apply, Run, After, PayloadHash, Parse;
    var actions := Placing();
    AfterAll(s, actions);
    NextIs(s, actions, 0);
    CheckIs(After(s, actions, 0), 0);
    NextIs(s, actions, 1);
    InsertIs(After(s, actions, 1), 0);
    NextIs(s, actions, 2);
    PushIs(After(s, actions, 2), 0);
  }

  lemma SubmissionRun(now: int, dwell: nat, token: Token, record: Record, ttl: nat, session: string)
    requires ttl > 0 && Parse(record.segments).Ok?
    ensures var ops := Parse(record.segments).value;
      var after := Run(Initial(now, dwell), Submission(token, record, ttl, session));
      && after.queue == [TicketOf(record, session)] && after.logs == [[]]
      && after.jobs == [NewJob(record.student, ops, PayloadHash(record.student, ops), now)]
      && after.now == now && after.dwell == dwell && after.worker.Idle?
  {
    hide Run, Parse, PayloadHash, Confirming, Placing;
    var confirming := Confirming(token, record, ttl, session);
    ConfirmingRun(now, dwell, token, record, ttl, session);
    PlacingRun(Run(Initial(now, dwell), confirming), token, record, session);
    RunConcat(Initial(now, dwell), confirming, Placing());
  }

  lemma ClaimingRun(s: State, t: Ticket, job: Job)
    requires s.worker.Idle? && s.queue == [t] && t.job == 0 && s.jobs == [job] && s.logs == [[]]
    requires Claimable(job, s.now - s.dwell) && Parse(t.segments).Ok?
    ensures var after := Run(s, Claiming());
      && after.worker == Working(t, Parse(t.segments).value, LoadJar(|s.audits|))
      && after.jobs == [job.(status := Running, startedAt := Some(s.now))] && |after.logs| == 1
  {
    hide Apply, Run, After, Parse, PendingRows, PayloadHash;
    var actions := Claiming();
    AfterAll(s, actions);
    NextIs(s, actions, 0);
    PopIs(After(s, actions, 0), 0);
    NextIs(s, actions, 1);
    ReadClockIs(After(s, actions, 1));
    NextIs(s, actions, 2);
    ClaimIs(After(s, actions, 2));
    NextIs(s, actions, 3);
    InsertAuditsIs(After(s, actions, 3), true);
  }

  lemma ReadingRun(s: State, t: Ticket, ops: seq<Op>, first: nat, page: Page)
    requires s.worker == Working(t, ops, LoadJar(first)) && t.job == 0 && |s.jobs| == |s.logs| == 1
    requires s.jobs[0].status.Running? && !page.bounce && PayloadFor(ops, t.variant, page).Some?
    ensures var after := Run(s, Reading(page));
      && after.worker.Working? && after.worker.t == t && after.worker.step.SendPost? && after.worker.step.tried == 0
      && after.jobs == s.jobs
  {
    hide Apply, Run, After, PayloadFor;
    var actions := Reading(page);
    AfterAll(s, actions);
    NextIs(s, actions, 0);
    JarIs(After(s, actions, 0), true);
    NextIs(s, actions, 1);
    CheckStatusIs(After(s, actions, 1));
    NextIs(s, actions, 2);
    GetIs(After(s, actions, 2));
    NextIs(s, actions, 3);
    FormIs(After(s, actions, 3), Some(page));
    NextIs(s, actions, 4);
    CheckStatusIs(After(s, actions, 4));
  }

  lemma ExecutionRun(s: State, t: Ticket, job: Job, page: Page)
    requires s.worker.Idle? && s.queue == [t] && t.job == 0 && s.jobs == [job] && s.logs == [[]]
    requires Claimable(job, s.now - s.dwell) && Parse(t.segments).Ok? && !page.bounce
    requires PayloadFor(Parse(t.segments).value, t.variant, page).Some?
    ensures var after := Run(s, Execution(page));
      && after.worker.Working? && after.worker.t == t && after.worker.step.SendPost? && after.worker.step.tried == 0
      && after.jobs == [job.(status := Running, startedAt := Some(s.now))]
  {
    hide Run, Parse, PayloadFor, Claiming, Reading;
    ClaimingRun(s, t, job);
    ReadingRun(Run(s, Claiming()), t, Parse(t.segments).value, |s.audits|, page);
    RunConcat(s, Claiming(), Reading(page));
  }

  /** The window is real: every batch that parses and every form page it fits on
      reach it, and a login there supersedes the job while its post still goes out. */
  lemma SupersededJobMayStillBePosted(now: int, dwell: nat, token: Token, record: Record, ttl: nat, session: string,
        page: Page)
    requires ttl > 0 && Parse(record.segments).Ok? && !page.bounce
    requires PayloadFor(Parse(record.segments).value, record.variant, page).Some?
    ensures var s := Run(Initial(now, dwell), Submission(token, record, ttl, session) + Execution(page)
        + [Login(record.student)]);
      && Reachable(s) && |s.jobs| == 1 && s.jobs[0].status.SessionSuperseded? && MayPost(s, 0)
      && Num(LogOf(Run(s, [WorkerPost]), 0), POST) == 1
  {
    hide Apply, Run, Parse, PayloadFor, Inv;
    var start := Initial(now, dwell);
    var submitted := Run(start, Submission(token, record, ttl, session));
    SubmissionRun(now, dwell, token, record, ttl, session);
    ExecutionRun(submitted, submitted.queue[0], submitted.jobs[0], page);
    var checked := Run(submitted, Execution(page));
    RunConcat(start, Submission(token, record, ttl, session), Execution(page));
    var actions := Submission(token, record, ttl, session) + Execution(page);
    RunSnoc(start, actions, Login(record.student));
    LoginIs(checked, record.student);
    var s := Apply(checked, Login(record.student));
    ReachableOk(s);
    WorkingFacts(s);
    InsideIsPosted(s, 0);
  }

  /** So "an ended job is never posted" is false of the site, for one drop and
      the plainest page. */
  lemma SomeEndedJobIsPosted()
    ensures exists s: State, actions: seq<Action> ::
      Reachable(s) && |s.jobs| == 1 && !Active(s.jobs[0].status)
      && Num(LogOf(Run(s, actions), 0), POST) > Num(LogOf(s, 0), POST)
  {
    hide Apply, Run, Parse, Print, Reachable, LogOf;
    var record := Record("B1", Print([Drop("CS1")]), VARIANT_SSFORM, "u");
    ParsePrint([Drop("CS1")]);
    var page := Page(false, Some("go"), map[], None, None);
    SupersededJobMayStillBePosted(0, 600, "t", record, 1, "s", page);
    var s := Run(Initial(0, 600), Submission("t", record, 1, "s") + Execution(page) + [Login("B1")]);
    assert MayPost(s, 0);
    EndedIsPostedExactlyInTheWindow(s, 0);
  }
}
