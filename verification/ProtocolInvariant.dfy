/** What every reachable state of the protocol satisfies, and why each step
    keeps it. */
module ProtocolInvariant {
  import opened Wrappers
  import opened Ops
  import opened Segments
  import opened Ledger
  import opened Protocol
  import Reconcile
  import Digits
  import Payload

  // ---------- the history of one job ----------

  const CLAIM: nat := 0
  const INSERT: nat := 1
  const GET: nat := 2
  const FORM: nat := 3
  const POST: nat := 4
  const ANSWER: nat := 5
  const ASK: nat := 6
  const READ: nat := 7
  const END: nat := 8

  /** The order in which the kinds of event may occur. */
  function Rank(e: Event): nat {
    match e
    case Claimed => CLAIM
    case AuditsInserted(_) => INSERT
    case FormGet => GET
    case FormRead(_) => FORM
    case Post(_, _) => POST
    case Answer(_) => ANSWER
    case Bounced => ANSWER
    case SltAsked => ASK
    case SltRead(_) => READ
    case Closed => END
    case Crashed => END
  }

  function Limit(rank: nat): nat {
    if rank == GET || rank == POST then MAX_CALLS else 1
  }

  function Num(log: seq<Event>, rank: nat): nat {
    if log == [] then 0
    else Num(log[..|log| - 1], rank) + (if Rank(log[|log| - 1]) == rank then 1 else 0)
  }

  predicate IsOver(log: seq<Event>) {
    log != [] && Rank(log[|log| - 1]) == END
  }

  predicate Inserted(log: seq<Event>) {
    |log| >= 2 && log[1].AuditsInserted?
  }

  function FindPage(log: seq<Event>): Option<Page> {
    if log == [] then None
    else if log[|log| - 1].FormRead? then Some(log[|log| - 1].page)
    else FindPage(log[..|log| - 1])
  }

  /** The form the school sees: the batch in the row slots, `send` and `step` as
      the page wants them, and every other field of the page verbatim. */
  ghost predicate Drawn(payload: Payload.Form, rows: nat, ops: seq<Op>, page: Page) {
    && Payload.Carries(payload, ops, rows)
    && (forall key :: key != Payload.SEND_NAME && key != "step" && !Payload.Slot(key, rows) ==>
          Payload.SameAt(payload, page.hidden, key))
    && (if page.step.Some? then "step" in payload && payload["step"] == page.step.value
        else Payload.SameAt(payload, page.hidden, "step"))
    && Payload.SEND_NAME in payload
    && payload[Payload.SEND_NAME] ==
        (if Payload.SEND_NAME in page.hidden then page.hidden[Payload.SEND_NAME]
         else if page.send.Some? then page.send.value
         else Payload.SEND_DEFAULT)
  }

  ghost predicate DrawnFrom(payload: Payload.Form, rows: nat, ops: seq<Op>, page: Option<Page>) {
    page.Some? && !page.value.bounce && Drawn(payload, rows, ops, page.value)
  }

  ghost predicate PostsDrawn(log: seq<Event>, ops: seq<Op>) {
    forall i :: 0 <= i < |log| && log[i].Post? ==> DrawnFrom(log[i].payload, log[i].rows, ops, FindPage(log))
  }

  ghost predicate InOrder(log: seq<Event>) {
    forall i, j :: 0 <= i < j < |log| ==> Rank(log[i]) <= Rank(log[j])
  }

  /** One claim, then one insert of the audit rows, then at most three requests
      for the form, one reading of it, at most three posts drawn from it, at most one answer, at most one slt_result
      query and reading, and one end; nothing out of that order, and no contact
      with the school unless the audit rows were inserted. */
  ghost predicate LogOk(log: seq<Event>, ops: seq<Op>) {
    && InOrder(log)
    && (forall r: nat :: Num(log, r) <= Limit(r))
    && (log != [] ==> log[0].Claimed?)
    && (|log| >= 2 ==> log[1].AuditsInserted? || Rank(log[1]) == END)
    && (Num(log, FORM) > 0 ==> Num(log, GET) > 0)
    && (Num(log, ASK) > 0 ==> Num(log, POST) >= 2)
    && PostsDrawn(log, ops)
  }

  function FindAnswer(log: seq<Event>): Option<Verdicts> {
    if log == [] then None
    else if log[|log| - 1].Answer? then Some(log[|log| - 1].verdicts)
    else FindAnswer(log[..|log| - 1])
  }

  function FindSlt(log: seq<Event>): Option<seq<Reconcile.Item>> {
    if log == [] then None
    else if log[|log| - 1].SltRead? then Some(log[|log| - 1].items)
    else FindSlt(log[..|log| - 1])
  }

  /** What giving up without an answer may be recorded as: an expired stage when
      nothing was sent, or a login page came instead of the form or of the answer;
      superseded and unparsed only when nothing was posted, on a page that was no
      login page; a transport failure only after three unanswered calls. */
  predicate GaveUp(log: seq<Event>, outcome: Outcome) {
    var page := FindPage(log);
    match outcome
    case StageExpired =>
      Num(log, GET) == 0 || Bounced in log || (page.Some? && page.value.bounce && Num(log, POST) == 0)
    case Superseded =>
      Bounced !in log && Num(log, POST) == 0 && (if page.Some? then !page.value.bounce else Num(log, GET) == 0)
    case ParseFailed => Bounced !in log && page.Some? && !page.value.bounce && Num(log, POST) == 0
    case TransportFailed =>
      Bounced !in log && (Num(log, POST) == MAX_CALLS || (page.None? && Num(log, GET) == MAX_CALLS))
    case _ => false
  }

  /** The outcome a closed row must carry, from what the school said. */
  ghost predicate RowMeans(log: seq<Event>, op: Op, outcome: Outcome, msg: Option<string>) {
    match FindAnswer(log)
    case None => GaveUp(log, outcome) && msg.None?
    case Some(v) =>
      var verdict := VerdictOf(v, op.code);
      var told := FirstOutcome(verdict, Num(log, POST) > 1);
      if told.UnknownReconciled? && FindSlt(log).Some? then
        var held := Reconcile.Held(FindSlt(log).value, op.code);
        && outcome == (if op.Add? == held then Success else Rejected)
        && msg == Some(Reconcile.Note(op, held))
      else outcome == told && msg == verdict.schoolMsg
  }

  // ---------- the audit rows of one job ----------

  ghost predicate RowsOf(audits: seq<Audit>, j: nat, ops: seq<Op>, hash: Hash, first: nat) {
    && first + |ops| <= |audits|
    && (forall k :: 0 <= k < |ops| ==>
          && audits[first + k].course == ops[k].code && audits[first + k].action == ActionText(ops[k])
          && audits[first + k].payloadHash == hash)
    && (forall i :: 0 <= i < |audits| ==> (audits[i].job == j <==> first <= i < first + |ops|))
  }

  /** No rows before the insert; then exactly the batch in op order, pending
      until the job is closed and final from then on. */
  ghost predicate AuditsOk(audits: seq<Audit>, j: nat, log: seq<Event>, ops: seq<Op>, hash: Hash) {
    if Inserted(log) then
      var first := log[1].first;
      && RowsOf(audits, j, ops, hash, first)
      && (log[|log| - 1].Closed? ==>
            forall k :: 0 <= k < |ops| ==>
              RowMeans(log, ops[k], audits[first + k].outcome, audits[first + k].schoolMsg))
      && (!log[|log| - 1].Closed? ==>
            forall i :: first <= i < first + |ops| ==> audits[i].outcome.Pending? && audits[i].schoolMsg.None?)
    else forall i :: 0 <= i < |audits| ==> audits[i].job != j
  }

  // ---------- one job ----------

  ghost predicate JobOk(job: Job, log: seq<Event>, busy: bool) {
    && LogOk(log, job.ops)
    && (job.finishedAt.Some? <==> !Active(job.status))
    && (job.startedAt.Some? <==> log != [])
    && (job.status.Queued? ==> log == [])
    && (job.status.Running? ==> log != [])
    && (busy <==> log != [] && !IsOver(log))
    && (log != [] && log[|log| - 1].Closed? ==> !Active(job.status))
  }

  predicate Busy(s: State, j: nat) {
    s.worker.Working? && s.worker.t.job == j
  }

  ghost predicate JobsOk(s: State) {
    && |s.origins| == |s.jobs| && |s.logs| == |s.jobs|
    && (forall j :: 0 <= j < |s.jobs| ==> JobOk(s.jobs[j], s.logs[j], Busy(s, j)))
    && (forall j :: 0 <= j < |s.jobs| ==> AuditsOk(s.audits, j, s.logs[j], s.jobs[j].ops, s.jobs[j].payloadHash))
    && (forall i :: 0 <= i < |s.audits| ==> s.audits[i].job < |s.jobs|)
  }

  // ---------- submission ----------

  ghost predicate HashesUnique(jobs: seq<Job>) {
    forall i, j :: 0 <= i < j < |jobs| && Active(jobs[i].status) && Active(jobs[j].status) ==>
      jobs[i].payloadHash != jobs[j].payloadHash
  }

  /** A ticket names an existing row and re-derives that row's batch and hash. */
  ghost predicate TicketOk(jobs: seq<Job>, t: Ticket) {
    && t.job < |jobs|
    && Parse(t.segments) == Ok(jobs[t.job].ops)
    && jobs[t.job].student == t.student
    && jobs[t.job].payloadHash == PayloadHash(t.student, jobs[t.job].ops)
  }

  ghost predicate HandlerOk(jobs: seq<Job>, x: Handler) {
    match x
    case Checked(_, record, student, _, ops) => Parse(record.segments) == Ok(ops)
    case Pushing(ticket) => TicketOk(jobs, ticket)
    case _ => true
  }

  ghost predicate TicketsOk(s: State) {
    && (forall i :: 0 <= i < |s.queue| ==> TicketOk(s.jobs, s.queue[i]))
    && (forall h :: 0 <= h < |s.handlers| ==> HandlerOk(s.jobs, s.handlers[h]))
    && (!s.worker.Idle? && !s.worker.Sweeping? ==> TicketOk(s.jobs, s.worker.t))
  }

  function Times(tokens: seq<Token>, token: Token): nat {
    if tokens == [] then 0
    else Times(tokens[..|tokens| - 1], token) + (if tokens[|tokens| - 1] == token then 1 else 0)
  }

  predicate Holds(x: Handler, token: Token) {
    (x.Taken? || x.Verified? || x.Checked?) && x.token == token
  }

  function Holders(handlers: seq<Handler>, token: Token): nat {
    if handlers == [] then 0
    else Holders(handlers[..|handlers| - 1], token) + (if Holds(handlers[|handlers| - 1], token) then 1 else 0)
  }

  /** Each mint is worth one use: parked, in a handler's hands, or spent on a job. */
  ghost predicate TokenOk(s: State, token: Token) {
    Times(s.origins, token) + Holders(s.handlers, token) + (if token in s.confirms then 1 else 0) <=
      Times(s.mints, token)
  }

  // ---------- the execution in progress ----------

  ghost predicate UpdatesFor(updates: seq<Update>, first: nat, ops: seq<Op>) {
    |updates| == |ops| && forall k :: 0 <= k < |ops| ==> updates[k].audit == first + k
  }

  ghost predicate Means(log: seq<Event>, ops: seq<Op>, updates: seq<Update>) {
    forall k :: 0 <= k < |ops| && k < |updates| ==> RowMeans(log, ops[k], updates[k].outcome, updates[k].schoolMsg)
  }

  ghost predicate AtStep(step: Step, log: seq<Event>, ops: seq<Op>)
    requires log != []
  {
    var last := Rank(log[|log| - 1]);
    match step
    case InsertAudits => log == [Claimed]
    case SinkDown => log == [Claimed]
    case LoadJar(first) => log == [Claimed, AuditsInserted(first)]
    case CheckBeforeForm(first) => log == [Claimed, AuditsInserted(first)]
    case GetForm(first, tried) =>
      Begun(log, first) && last <= GET && Num(log, GET) == tried < MAX_CALLS
    case AwaitForm(first, tried) =>
      Begun(log, first) && last == GET && Num(log, GET) == tried && 1 <= tried <= MAX_CALLS
    case CheckBeforePost(first, payload, rows) =>
      Begun(log, first) && last == FORM && DrawnFrom(payload, rows, ops, FindPage(log))
    case SendPost(first, payload, rows, tried) =>
      && Begun(log, first) && FORM <= last <= POST && Num(log, POST) == tried < MAX_CALLS
      && DrawnFrom(payload, rows, ops, FindPage(log))
    case AwaitPost(first, payload, rows, tried) =>
      && Begun(log, first) && last == POST && Num(log, POST) == tried && 1 <= tried <= MAX_CALLS
      && DrawnFrom(payload, rows, ops, FindPage(log))
    case ReloadJar(first, updates) => Weighing(log, first, updates, ops) && last == ANSWER
    case AskSlt(first, updates) => Weighing(log, first, updates, ops) && last == ANSWER
    case AwaitSlt(first, updates) => Weighing(log, first, updates, ops) && last == ASK
    case Close(first, updates, status) =>
      Begun(log, first) && last < END && UpdatesFor(updates, first, ops) && Means(log, ops, updates) && !Active(status)
  }

  ghost predicate Begun(log: seq<Event>, first: nat) {
    |log| >= 2 && log[1] == AuditsInserted(first)
  }

  ghost predicate Weighing(log: seq<Event>, first: nat, updates: seq<Update>, ops: seq<Op>) {
    && Begun(log, first)
    && Num(log, POST) >= 2
    && UpdatesFor(updates, first, ops)
    && FindAnswer(log).Some? && FindSlt(log).None?
    && (forall k ::
          0 <= k < |ops| ==>
            var verdict := VerdictOf(FindAnswer(log).value, ops[k].code);
            updates[k].outcome == FirstOutcome(verdict, true) && updates[k].schoolMsg == verdict.schoolMsg)
  }

  ghost predicate WorkerOk(s: State) {
    match s.worker
    case Claiming(t, ops, _) => t.job < |s.jobs| && ops == s.jobs[t.job].ops
    case Working(t, ops, step) =>
      && t.job < |s.jobs| && t.job < |s.logs|
      && ops == s.jobs[t.job].ops
      && s.logs[t.job] != []
      && AtStep(step, s.logs[t.job], ops)
    case _ => true
  }

  ghost predicate Inv(s: State) {
    && JobsOk(s)
    && HashesUnique(s.jobs)
    && TicketsOk(s)
    && (forall token :: TokenOk(s, token))
    && WorkerOk(s)
  }

  // ---------- facts about histories ----------

  lemma NumSnoc(log: seq<Event>, e: Event)
    ensures forall r: nat :: Num(log + [e], r) == Num(log, r) + (if Rank(e) == r then 1 else 0)
  {
    assert (log + [e])[..|log + [e]| - 1] == log;
  }

  lemma FindSnoc(log: seq<Event>, e: Event)
    ensures FindAnswer(log + [e]) == if e.Answer? then Some(e.verdicts) else FindAnswer(log)
    ensures FindSlt(log + [e]) == if e.SltRead? then Some(e.items) else FindSlt(log)
    ensures FindPage(log + [e]) == if e.FormRead? then Some(e.page) else FindPage(log)
    ensures Bounced in log + [e] <==> Bounced in log || e.Bounced?
  {
    assert (log + [e])[..|log + [e]| - 1] == log;
  }

  /** Kinds above the last one have not occurred. */
  lemma {:induction false} NoneAbove(log: seq<Event>, r: nat)
    requires log != [] && InOrder(log)
    requires Rank(log[|log| - 1]) < r
    ensures Num(log, r) == 0
    ensures r == FORM ==> FindPage(log) == None
    ensures r == ANSWER ==> FindAnswer(log) == None
    ensures r == READ ==> FindSlt(log) == None
  {
    var front := log[..|log| - 1];
    if front != [] {
      assert Rank(front[|front| - 1]) <= Rank(log[|log| - 1]);
      NoneAbove(front, r);
    }
  }

  lemma NotBounced(log: seq<Event>)
    requires log != [] && InOrder(log) && Rank(log[|log| - 1]) < ANSWER
    ensures Bounced !in log
  {
    forall i | 0 <= i < |log| ensures log[i] != Bounced {
      assert i < |log| - 1 ==> Rank(log[i]) <= Rank(log[|log| - 1]);
    }
  }

  /** An event may follow when its kind is not behind the last one and its
      number is not used up. */
  lemma LogGrows(log: seq<Event>, ops: seq<Op>, e: Event)
    requires LogOk(log, ops) && log != []
    requires Rank(log[|log| - 1]) <= Rank(e)
    requires Num(log, Rank(e)) < Limit(Rank(e))
    requires |log| == 1 ==> e.AuditsInserted? || Rank(e) == END
    requires Rank(e) == FORM ==> Num(log, GET) > 0
    requires Rank(e) == ASK ==> Num(log, POST) >= 2
    requires e.Post? ==> DrawnFrom(e.payload, e.rows, ops, FindPage(log))
    ensures LogOk(log + [e], ops)
  {
    hide DrawnFrom;
    NumSnoc(log, e);
    PostsStay(log, ops, e);
    forall i, j | 0 <= i < j < |log + [e]| ensures Rank((log + [e])[i]) <= Rank((log + [e])[j]) {
      if j == |log| {
        assert i < |log| - 1 ==> Rank(log[i]) <= Rank(log[|log| - 1]);
      }
    }
  }

  lemma PostsStay(log: seq<Event>, ops: seq<Op>, e: Event)
    requires InOrder(log) && PostsDrawn(log, ops) && log != [] && Rank(log[|log| - 1]) <= Rank(e)
    requires e.Post? ==> DrawnFrom(e.payload, e.rows, ops, FindPage(log))
    ensures PostsDrawn(log + [e], ops)
  {
    hide DrawnFrom;
    FindSnoc(log, e);
    forall i | 0 <= i < |log + [e]| && (log + [e])[i].Post?
      ensures DrawnFrom((log + [e])[i].payload, (log + [e])[i].rows, ops, FindPage(log + [e]))
    {
      if i < |log| {
        assert Rank(log[i]) <= Rank(log[|log| - 1]);
      }
    }
  }

  lemma FirstClaim(ops: seq<Op>)
    ensures LogOk([Claimed], ops)
  {
    assert [Claimed][..0] == [];
  }

  // ---------- steps that leave every job's history alone ----------

  /** A row kept or ended; identity columns untouched. */
  ghost predicate RowEnds(b: Job, a: Job) {
    || a == b
    || (Active(b.status) && !Active(a.status) && a.finishedAt.Some?
        && a == b.(status := a.status, finishedAt := a.finishedAt))
  }

  ghost predicate OnlyEnds(before: seq<Job>, after: seq<Job>) {
    |after| == |before| && forall j :: 0 <= j < |before| ==> RowEnds(before[j], after[j])
  }

  lemma JobEnds(b: Job, a: Job, log: seq<Event>, busy: bool)
    requires JobOk(b, log, busy) && RowEnds(b, a)
    ensures JobOk(a, log, busy)
  {
  }

  lemma TicketsSurvive(before: seq<Job>, after: seq<Job>, t: Ticket)
    requires Evolves(before, after) && TicketOk(before, t)
    ensures TicketOk(after, t)
  {
    assert RowEvolves(before[t.job], after[t.job]);
  }

  /** Ending rows, and moving the worker between phases without an execution,
      keeps everything. */
  lemma EndingKeepsInv(s: State, s': State)
    requires Inv(s)
    requires s' == s.(jobs := s'.jobs, worker := s'.worker, students := s'.students, now := s'.now)
    requires OnlyEnds(s.jobs, s'.jobs)
    requires s'.worker.Working? ==> s'.worker == s.worker
    requires s'.worker != s.worker && !s'.worker.Idle? && !s'.worker.Sweeping? ==> TicketOk(s.jobs, s'.worker.t)
    requires s'.worker != s.worker && s'.worker.Claiming? ==> s'.worker.ops == s.jobs[s'.worker.t.job].ops
    requires s.worker.Working? ==> s'.worker == s.worker
    ensures Inv(s')
  {
    forall j | 0 <= j < |s'.jobs|
      ensures JobOk(s'.jobs[j], s'.logs[j], Busy(s', j))
      ensures AuditsOk(s'.audits, j, s'.logs[j], s'.jobs[j].ops, s'.jobs[j].payloadHash)
    {
      assert RowEnds(s.jobs[j], s'.jobs[j]);
      JobEnds(s.jobs[j], s'.jobs[j], s.logs[j], Busy(s, j));
      assert AuditsOk(s.audits, j, s.logs[j], s.jobs[j].ops, s.jobs[j].payloadHash);
    }
    assert Evolves(s.jobs, s'.jobs);
    TicketsEvolve(s, s', |s.handlers|);
    forall token ensures TokenOk(s', token) {
      assert TokenOk(s, token);
    }
  }

  // ---------- steps of the submit side ----------

  lemma TimesSnoc(tokens: seq<Token>, last: Token, token: Token)
    ensures Times(tokens + [last], token) == Times(tokens, token) + (if last == token then 1 else 0)
  {
    assert (tokens + [last])[..|tokens + [last]| - 1] == tokens;
  }

  lemma HoldersSnoc(handlers: seq<Handler>, last: Handler, token: Token)
    ensures Holders(handlers + [last], token) == Holders(handlers, token) + (if Holds(last, token) then 1 else 0)
  {
    assert (handlers + [last])[..|handlers + [last]| - 1] == handlers;
  }

  lemma {:induction false} HoldersUpdate(handlers: seq<Handler>, h: nat, x: Handler, token: Token)
    requires h < |handlers|
    ensures Holders(handlers[h := x], token) + (if Holds(handlers[h], token) then 1 else 0)
         == Holders(handlers, token) + (if Holds(x, token) then 1 else 0)
  {
    var n := |handlers| - 1;
    if h == n {
      assert handlers[h := x][..n] == handlers[..n];
    } else {
      HoldersUpdate(handlers[..n], h, x, token);
      assert handlers[h := x][..n] == handlers[..n][h := x];
    }
  }

  /** A handler moves on without gaining a token and without touching a table. */
  lemma HandlerKeepsInv(s: State, h: nat, x: Handler)
    requires Inv(s) && h < |s.handlers| && HandlerOk(s.jobs, x)
    requires forall token :: Holds(x, token) ==> Holds(s.handlers[h], token)
    ensures Inv(s.(handlers := s.handlers[h := x]))
  {
    var s' := s.(handlers := s.handlers[h := x]);
    forall token ensures TokenOk(s', token) {
      assert TokenOk(s, token);
      HoldersUpdate(s.handlers, h, x, token);
    }
    JobsFrame(s, s');
  }

  /** The job tables and the worker are as before. */
  lemma JobsFrame(s: State, s': State)
    requires JobsOk(s) && WorkerOk(s)
    requires s'.jobs == s.jobs && s'.logs == s.logs && s'.audits == s.audits && s'.origins == s.origins
      && s'.worker == s.worker
    ensures JobsOk(s') && WorkerOk(s')
  {
    forall j | 0 <= j < |s'.jobs|
      ensures JobOk(s'.jobs[j], s'.logs[j], Busy(s', j))
      ensures AuditsOk(s'.audits, j, s'.logs[j], s'.jobs[j].ops, s'.jobs[j].payloadHash)
    {
      assert JobOk(s.jobs[j], s.logs[j], Busy(s, j));
      assert AuditsOk(s.audits, j, s.logs[j], s.jobs[j].ops, s.jobs[j].payloadHash);
    }
  }

  lemma MintKeepsInv(s: State, token: Token, record: Record, ttl: nat)
    requires Inv(s)
    ensures Inv(Mint(s, token, record, ttl))
  {
    var s' := Mint(s, token, record, ttl);
    JobsFrame(s, s');
    forall t ensures TokenOk(s', t) {
      assert TokenOk(s, t);
      TimesSnoc(s.mints, token, t);
    }
  }

  lemma TakeKeepsInv(s: State, token: Token, student: string, session: string)
    requires Inv(s)
    ensures Inv(Take(s, token, student, session))
  {
    var s' := Take(s, token, student, session);
    JobsFrame(s, s');
    forall t ensures TokenOk(s', t) {
      assert TokenOk(s, t);
      if |s'.handlers| > |s.handlers| {
        HoldersSnoc(s.handlers, s'.handlers[|s.handlers|], t);
      }
    }
  }

  lemma InsertKeepsInv(s: State, h: nat)
    requires Inv(s)
    ensures Inv(InsertRow(s, h))
  {
    if h < |s.handlers| && s.handlers[h].Checked? {
      var x := s.handlers[h];
      var hash := PayloadHash(x.student, x.ops);
      if HasActive(s.jobs, hash) {
        HandlerKeepsInv(s, h, Gone);
      } else {
        InsertedRowKeepsInv(s, h);
      }
    }
  }

  lemma InsertedRowKeepsInv(s: State, h: nat)
    requires Inv(s) && h < |s.handlers| && s.handlers[h].Checked?
    requires !HasActive(s.jobs, PayloadHash(s.handlers[h].student, s.handlers[h].ops))
    ensures Inv(InsertRow(s, h))
  {
    hide Parse, PayloadHash, JobOk, LogOk, AuditsOk, AtStep;
    var x := s.handlers[h];
    var s' := InsertRow(s, h);
    NewRowKeepsJobs(s, s', x);
    assert HandlerOk(s.jobs, x);
    TicketsEvolve(s, s', h);
    forall token ensures TokenOk(s', token) {
      assert TokenOk(s, token);
      TimesSnoc(s.origins, x.token, token);
      HoldersUpdate(s.handlers, h, s'.handlers[h], token);
    }
  }

  lemma NewRowKeepsJobs(s: State, s': State, x: Handler)
    requires JobsOk(s) && WorkerOk(s) && x.Checked?
    requires s'.jobs == s.jobs + [NewJob(x.student, x.ops, PayloadHash(x.student, x.ops), s.now)]
    requires s'.logs == s.logs + [[]] && s'.origins == s.origins + [x.token]
    requires s'.audits == s.audits && s'.worker == s.worker
    ensures JobsOk(s') && WorkerOk(s')
  {
    forall j | 0 <= j < |s'.jobs|
      ensures JobOk(s'.jobs[j], s'.logs[j], Busy(s', j))
      ensures AuditsOk(s'.audits, j, s'.logs[j], s'.jobs[j].ops, s'.jobs[j].payloadHash)
    {
      if j < |s.jobs| {
        assert JobOk(s.jobs[j], s.logs[j], Busy(s, j));
        assert AuditsOk(s.audits, j, s.logs[j], s.jobs[j].ops, s.jobs[j].payloadHash);
      }
    }
  }

  /** Tickets stay good while rows evolve; handler `h` may have become another
      good one. */
  lemma TicketsEvolve(s: State, s': State, h: nat)
    requires TicketsOk(s) && Evolves(s.jobs, s'.jobs) && s'.queue == s.queue && |s'.handlers| == |s.handlers|
    requires forall k :: 0 <= k < |s.handlers| && k != h ==> s'.handlers[k] == s.handlers[k]
    requires h < |s.handlers| ==> HandlerOk(s'.jobs, s'.handlers[h])
    requires !s'.worker.Idle? && !s'.worker.Sweeping? ==> TicketOk(s.jobs, s'.worker.t)
    ensures TicketsOk(s')
  {
    forall i | 0 <= i < |s'.queue| ensures TicketOk(s'.jobs, s'.queue[i]) {
      TicketsSurvive(s.jobs, s'.jobs, s.queue[i]);
    }
    forall k | 0 <= k < |s'.handlers| ensures HandlerOk(s'.jobs, s'.handlers[k]) {
      assert HandlerOk(s.jobs, s.handlers[k]);
      if k != h && s.handlers[k].Pushing? {
        TicketsSurvive(s.jobs, s'.jobs, s.handlers[k].ticket);
      }
    }
    if !s'.worker.Idle? && !s'.worker.Sweeping? {
      TicketsSurvive(s.jobs, s'.jobs, s'.worker.t);
    }
  }

  lemma PushKeepsInv(s: State, h: nat)
    requires Inv(s)
    ensures Inv(Push(s, h))
  {
    if h < |s.handlers| && s.handlers[h].Pushing? {
      assert HandlerOk(s.jobs, s.handlers[h]);
      HandlerKeepsInv(s, h, Gone);
      var s1 := s.(handlers := s.handlers[h := Gone]);
      JobsFrame(s1, Push(s, h));
      QueueKeepsInv(s1, Push(s, h));
    }
  }

  /** The queue may be reordered, duplicated from, or lose tickets. */
  lemma QueueKeepsInv(s: State, s': State)
    requires Inv(s) && s' == s.(queue := s'.queue)
    requires forall i :: 0 <= i < |s'.queue| ==> TicketOk(s.jobs, s'.queue[i])
    ensures Inv(s')
  {
    JobsFrame(s, s');
    forall token ensures TokenOk(s', token) {
      assert TokenOk(s, token);
    }
  }

  lemma SubmitSideKeepsInv(s: State, a: Action)
    requires Inv(s)
    requires a.VerifyPassword? || a.CheckRecord? || a.Abandon? || a.Redeliver? || a.Lose?
    ensures Inv(Apply(s, a))
  {
    hide JobsOk, HashesUnique, TokenOk, WorkerOk;
    match a
    case VerifyPassword(h, accepted) =>
      if h < |s.handlers| && s.handlers[h].Taken? {
        var x := s.handlers[h];
        HandlerKeepsInv(s, h, if accepted then Verified(x.token, x.record, x.student, x.session) else Gone);
      }
    case CheckRecord(h) =>
      if h < |s.handlers| && s.handlers[h].Verified? {
        HandlerKeepsInv(s, h, Check(s, h).handlers[h]);
        assert Check(s, h) == s.(handlers := s.handlers[h := Check(s, h).handlers[h]]);
      }
    case Abandon(h) =>
      if h < |s.handlers| {
        HandlerKeepsInv(s, h, Gone);
      }
    case Redeliver(i) => QueueKeepsInv(s, Apply(s, a));
    case Lose(i) => QueueKeepsInv(s, Apply(s, a));
  }

  // ---------- steps of an execution ----------

  /** The working job's history gains one event, or none, and the rest of the
      state is as before except for that job's row and rows of the audit. */
  ghost predicate Advances(s: State, s': State) {
    && s.worker.Working? && s.worker.t.job < |s.jobs| && |s.logs| == |s.jobs|
    && s' == s.(jobs := s'.jobs, audits := s'.audits, logs := s'.logs, worker := s'.worker)
    && OnlyEnds(s.jobs, s'.jobs)
    && (forall k :: 0 <= k < |s.jobs| && k != s.worker.t.job ==> s'.jobs[k] == s.jobs[k])
    && |s'.logs| == |s.logs|
    && (forall k :: 0 <= k < |s.logs| && k != s.worker.t.job ==> s'.logs[k] == s.logs[k])
    && OtherRowsKept(s.audits, s'.audits, s.worker.t.job)
  }

  /** Only rows of job `j` were added or changed. */
  ghost predicate OtherRowsKept(before: seq<Audit>, after: seq<Audit>, j: nat) {
    && |before| <= |after|
    && (forall i ::
          0 <= i < |before| ==> after[i].job == before[i].job && (before[i].job != j ==> after[i] == before[i]))
    && (forall i :: |before| <= i < |after| ==> after[i].job == j)
  }

  lemma OtherAuditsKept(before: seq<Audit>, after: seq<Audit>, j: nat, k: nat, log: seq<Event>, ops: seq<Op>,
        hash: Hash)
    requires OtherRowsKept(before, after, j) && k != j
    requires AuditsOk(before, k, log, ops, hash)
    ensures AuditsOk(after, k, log, ops, hash)
  {
    hide RowMeans, RowsOf;
    if Inserted(log) {
      var first := log[1].first;
      OtherRowsOf(before, after, j, k, ops, hash, first);
      forall n | 0 <= n < |ops| && log[|log| - 1].Closed?
        ensures RowMeans(log, ops[n], after[first + n].outcome, after[first + n].schoolMsg)
      {
        assert RowMeans(log, ops[n], before[first + n].outcome, before[first + n].schoolMsg);
      }
    }
  }

  lemma OtherRowsOf(before: seq<Audit>, after: seq<Audit>, j: nat, k: nat, ops: seq<Op>, hash: Hash, first: nat)
    requires OtherRowsKept(before, after, j) && k != j && RowsOf(before, k, ops, hash, first)
    ensures RowsOf(after, k, ops, hash, first)
    ensures forall i :: first <= i < first + |ops| ==> after[i] == before[i]
  {
    forall i | first <= i < first + |ops| ensures after[i] == before[i] {
      assert before[i].job == k;
    }
    forall n | 0 <= n < |ops|
      ensures after[first + n].course == ops[n].code && after[first + n].action == ActionText(ops[n])
      ensures after[first + n].payloadHash == hash
    {
      assert after[first + n] == before[first + n] && before[first + n].course == ops[n].code;
    }
  }

  /** So it is enough to look at the working job. */
  lemma AdvanceKeepsInv(s: State, s': State)
    requires Inv(s) && Advances(s, s')
    requires s'.worker.Working? ==> s'.worker.t == s.worker.t && s'.worker.ops == s.worker.ops
    requires s'.worker.Working? || s'.worker.Idle?
    requires var j := s.worker.t.job;
      && JobOk(s'.jobs[j], s'.logs[j], s'.worker.Working?)
      && AuditsOk(s'.audits, j, s'.logs[j], s'.jobs[j].ops, s'.jobs[j].payloadHash)
      && (s'.worker.Working? ==> s'.logs[j] != [] && AtStep(s'.worker.step, s'.logs[j], s.worker.ops))
    ensures Inv(s')
  {
    hide LogOk, AuditsOk, AtStep, Parse, PayloadHash;
    var j := s.worker.t.job;
    forall k | 0 <= k < |s'.jobs|
      ensures JobOk(s'.jobs[k], s'.logs[k], Busy(s', k))
      ensures AuditsOk(s'.audits, k, s'.logs[k], s'.jobs[k].ops, s'.jobs[k].payloadHash)
    {
      if k != j {
        assert JobOk(s.jobs[k], s.logs[k], Busy(s, k));
        assert AuditsOk(s.audits, k, s.logs[k], s.jobs[k].ops, s.jobs[k].payloadHash);
        OtherAuditsKept(s.audits, s'.audits, j, k, s.logs[k], s.jobs[k].ops, s.jobs[k].payloadHash);
      }
    }
    assert RowEnds(s.jobs[j], s'.jobs[j]);
    assert Evolves(s.jobs, s'.jobs);
    TicketsEvolve(s, s', |s.handlers|);
    forall token ensures TokenOk(s', token) {
      assert TokenOk(s, token);
    }
  }

  /** What is known of the working job at each step. */
  lemma WorkingFacts(s: State)
    requires Inv(s) && s.worker.Working?
    ensures var j := s.worker.t.job;
      && j < |s.jobs| == |s.logs| && s.worker.ops == s.jobs[j].ops && s.logs[j] != [] && !IsOver(s.logs[j])
      && JobOk(s.jobs[j], s.logs[j], true) && LogOk(s.logs[j], s.worker.ops)
      && AuditsOk(s.audits, j, s.logs[j], s.jobs[j].ops, s.jobs[j].payloadHash)
      && AtStep(s.worker.step, s.logs[j], s.worker.ops)
  {
    assert JobOk(s.jobs[s.worker.t.job], s.logs[s.worker.t.job], Busy(s, s.worker.t.job));
  }

  /** The ticket in work re-derives the hash of its job. */
  lemma WorkingHash(s: State)
    requires Inv(s) && s.worker.Working?
    ensures s.worker.t.job < |s.jobs|
    ensures s.jobs[s.worker.t.job].payloadHash == PayloadHash(s.worker.t.student, s.worker.ops)
  {
    hide JobsOk, HashesUnique, TokenOk, PayloadHash, AtStep;
    assert TicketOk(s.jobs, s.worker.t);
  }

  /** Only the step changes. */
  lemma StepKeepsInv(s: State, step: Step)
    requires Inv(s) && s.worker.Working?
    requires s.worker.t.job < |s.logs| && s.logs[s.worker.t.job] != []
    requires AtStep(step, s.logs[s.worker.t.job], s.worker.ops)
    ensures Inv(Go(s, step))
  {
    hide Inv, JobOk, LogOk, AuditsOk, CanLog;
    WorkingFacts(s);
    AdvanceKeepsInv(s, Go(s, step));
  }

  lemma JobLogs(job: Job, log: seq<Event>, e: Event, busy: bool)
    requires JobOk(job, log, true) && LogOk(log + [e], job.ops)
    requires busy <==> Rank(e) != END
    requires e.Closed? ==> !Active(job.status)
    ensures JobOk(job, log + [e], busy)
  {
  }

  lemma AuditsLog(audits: seq<Audit>, j: nat, log: seq<Event>, e: Event, ops: seq<Op>, hash: Hash)
    requires Inserted(log) && AuditsOk(audits, j, log, ops, hash)
    requires !log[|log| - 1].Closed? && !e.Closed?
    ensures AuditsOk(audits, j, log + [e], ops, hash)
  {
    assert (log + [e])[1] == log[1];
  }

  /** The log may take `e`, which ends nothing. */
  ghost predicate CanLog(log: seq<Event>, ops: seq<Op>, e: Event) {
    && Inserted(log)
    && Rank(log[|log| - 1]) <= Rank(e) < END && Num(log, Rank(e)) < Limit(Rank(e))
    && (Rank(e) == FORM ==> Num(log, GET) > 0)
    && (Rank(e) == ASK ==> Num(log, POST) >= 2)
    && (e.Post? ==> DrawnFrom(e.payload, e.rows, ops, FindPage(log)))
  }

  /** An event that ends nothing is logged and the step changes. */
  lemma EventKeepsInv(s: State, e: Event, step: Step)
    requires Inv(s) && s.worker.Working? && s.worker.t.job < |s.logs|
    requires CanLog(s.logs[s.worker.t.job], s.worker.ops, e)
    requires AtStep(step, s.logs[s.worker.t.job] + [e], s.worker.ops)
    ensures Inv(Go(s.(logs := Log(s, s.worker.t.job, e)), step))
  {
    hide Inv, JobOk, LogOk, AuditsOk, AtStep;
    WorkingFacts(s);
    var j := s.worker.t.job;
    var s' := Go(s.(logs := Log(s, j, e)), step);
    LogGrows(s.logs[j], s.worker.ops, e);
    JobLogs(s.jobs[j], s.logs[j], e, true);
    AuditsLog(s.audits, j, s.logs[j], e, s.worker.ops, s.jobs[j].payloadHash);
    LoggedAdvances(s, e, step);
    AdvanceKeepsInv(s, s');
  }

  lemma LoggedAdvances(s: State, e: Event, step: Step)
    requires s.worker.Working? && s.worker.t.job < |s.jobs| && |s.logs| == |s.jobs|
    ensures var s' := Go(s.(logs := Log(s, s.worker.t.job, e)), step);
      Advances(s, s') && s'.logs[s.worker.t.job] == s.logs[s.worker.t.job] + [e]
  {
  }

  lemma AllRowsMean(log: seq<Event>, ops: seq<Op>, first: nat, outcome: Outcome)
    requires FindAnswer(log).None? && GaveUp(log, outcome)
    ensures UpdatesFor(AllRows(first, |ops|, outcome), first, ops) && Means(log, ops, AllRows(first, |ops|, outcome))
  {
  }

  /** Giving up before any answer. */
  lemma CloseAllKeepsInv(s: State, first: nat, outcome: Outcome)
    requires Inv(s) && s.worker.Working? && s.worker.t.job < |s.logs|
    requires Begun(s.logs[s.worker.t.job], first) && Rank(s.logs[s.worker.t.job][|s.logs[s.worker.t.job]| - 1]) < ANSWER
    requires GaveUp(s.logs[s.worker.t.job], outcome)
    ensures Inv(CloseAll(s, first, outcome))
  {
    hide Inv, JobOk, AuditsOk;
    WorkingFacts(s);
    var log := s.logs[s.worker.t.job];
    NoneAbove(log, ANSWER);
    AllRowsMean(log, s.worker.ops, first, outcome);
    StepKeepsInv(s, Close(first, AllRows(first, |s.worker.ops|, outcome), Failed));
  }

  lemma RowsInserted(audits: seq<Audit>, j: nat, ops: seq<Op>, hash: Hash)
    requires AuditsOk(audits, j, [Claimed], ops, hash)
    ensures AuditsOk(audits + PendingRows(j, ops, hash), j, [Claimed, AuditsInserted(|audits|)], ops, hash)
    ensures OtherRowsKept(audits, audits + PendingRows(j, ops, hash), j)
  {
  }

  lemma InsertLogged(ops: seq<Op>, first: nat)
    requires LogOk([Claimed], ops)
    ensures LogOk([Claimed, AuditsInserted(first)], ops)
  {
    assert Num([Claimed], INSERT) == 0 by {
      assert [Claimed][..0] == [];
    }
    LogGrows([Claimed], ops, AuditsInserted(first));
    assert [Claimed] + [AuditsInserted(first)] == [Claimed, AuditsInserted(first)];
  }

  lemma InsertAuditsKeepsInv(s: State, ok: bool)
    requires Inv(s)
    ensures Inv(DoInsertAudits(s, ok))
  {
    hide Inv, LogOk, AuditsOk, OtherRowsKept, RowMeans, PayloadHash;
    if s.worker.Working? && s.worker.step.InsertAudits? {
      WorkingFacts(s);
      WorkingHash(s);
      var j := s.worker.t.job;
      if ok {
        var e := AuditsInserted(|s.audits|);
        InsertLogged(s.worker.ops, |s.audits|);
        RowsInserted(s.audits, j, s.worker.ops, PayloadHash(s.worker.t.student, s.worker.ops));
        assert s.logs[j] + [e] == [Claimed, e];
        AdvanceKeepsInv(s, DoInsertAudits(s, ok));
      } else {
        StepKeepsInv(s, SinkDown);
      }
    }
  }

  lemma FailKeepsInv(s: State)
    requires Inv(s)
    ensures Inv(FailJob(s))
  {
    if s.worker.Working? && s.worker.step.SinkDown? {
      hide Inv, JobOk;
      WorkingFacts(s);
      var j := s.worker.t.job;
      var s' := FailJob(s);
      JobEnds(s.jobs[j], s'.jobs[j], s.logs[j], true);
      EndsLog(s'.jobs[j], s.logs[j], Closed);
      assert s'.logs[j] == s.logs[j] + [Closed];
      AdvanceKeepsInv(s, s');
    }
  }

  lemma JarKeepsInv(s: State, alive: bool)
    requires Inv(s)
    ensures Inv(JarAnswer(s, alive))
  {
    hide Inv, JobOk, AuditsOk;
    if s.worker.Working? {
      WorkingFacts(s);
      var log := s.logs[s.worker.t.job];
      match s.worker.step
      case LoadJar(first) =>
        if alive {
          StepKeepsInv(s, CheckBeforeForm(first));
        } else {
          NoneAbove(log, GET);
          CloseAllKeepsInv(s, first, StageExpired);
        }
      case ReloadJar(first, updates) =>
        WeighingMeans(log, s.worker.ops, first, updates);
        StepKeepsInv(s, if alive then AskSlt(first, updates) else Close(first, updates, Done));
      case _ =>
    }
  }

  lemma CheckStatusKeepsInv(s: State)
    requires Inv(s)
    ensures Inv(CheckStatus(s))
  {
    hide Inv, JobOk, AuditsOk;
    if s.worker.Working? && s.worker.t.job < |s.jobs| {
      WorkingFacts(s);
      var log := s.logs[s.worker.t.job];
      var running := s.jobs[s.worker.t.job].status.Running?;
      match s.worker.step
      case CheckBeforeForm(first) =>
        NotBounced(log);
        NoneAbove(log, POST);
        NoneAbove(log, FORM);
        NoneAbove(log, GET);
        if running {
          StepKeepsInv(s, GetForm(first, 0));
        } else {
          CloseAllKeepsInv(s, first, Superseded);
        }
      case CheckBeforePost(first, payload, rows) =>
        NotBounced(log);
        NoneAbove(log, POST);
        if running {
          StepKeepsInv(s, SendPost(first, payload, rows, 0));
        } else {
          CloseAllKeepsInv(s, first, Superseded);
        }
      case _ =>
    }
  }

  lemma GetKeepsInv(s: State)
    requires Inv(s)
    ensures Inv(DoGet(s))
  {
    hide Inv, JobOk, LogOk, AuditsOk, CanLog;
    if s.worker.Working? && s.worker.step.GetForm? {
      WorkingFacts(s);
      var k := s.worker.step;
      GetCounted(s.logs[s.worker.t.job], s.worker.ops, k.first, k.tried);
      EventKeepsInv(s, FormGet, AwaitForm(k.first, k.tried + 1));
    }
  }

  lemma GetCounted(log: seq<Event>, ops: seq<Op>, first: nat, tried: nat)
    requires log != [] && AtStep(GetForm(first, tried), log, ops)
    ensures CanLog(log, ops, FormGet) && AtStep(AwaitForm(first, tried + 1), log + [FormGet], ops)
  {
    NumSnoc(log, FormGet);
    assert (log + [FormGet])[1] == log[1];
  }

  lemma PayloadForDraws(ops: seq<Op>, variant: string, page: Page)
    ensures PayloadFor(ops, variant, page).Some? ==>
      Drawn(PayloadFor(ops, variant, page).value.0, PayloadFor(ops, variant, page).value.1, ops, page)
  {
    if PayloadFor(ops, variant, page).Some? {
      var hidden := HiddenOf(page);
      var default := DefaultRows(variant);
      var rows := Payload.RowsTotal(hidden, default);
      var built := Payload.BuiltForm(ops, hidden, default).value;
      Payload.BuiltFormIsBuild(ops, hidden, default);
      Payload.StepIsNoSlot(rows);
      if page.step.Some? {
        Payload.StepKeepsRows(built, ops, rows, page.step.value);
      }
      assert Payload.SameAt(built, hidden, "step");
    }
  }

  /** What the worker posts for a batch on a page: nothing without an action, for
      an unknown variant, or for a batch longer than the form; else the batch row
      by row and the page's own fields around it. */
  ghost predicate Posts(payload: Option<(Payload.Form, nat)>, ops: seq<Op>, variant: string, page: Page) {
    var named := "MAX_ADD" in page.hidden && Digits.AllDigits(page.hidden["MAX_ADD"]);
    var rows := if named then Digits.Number(page.hidden["MAX_ADD"]) else if variant == "ssform" then 15 else 10;
    && (payload.Some? <==> page.action.Some? && (variant == "ssform" || variant == "stage5") && |ops| <= rows)
    && (payload.Some? ==>
          var form := payload.value.0;
          && payload.value.1 == rows && (forall k: nat :: k < rows ==> Payload.RowReads(form, ops, k))
          && "send" in form
          && form["send"] == (if "send" in page.hidden then page.hidden["send"] else page.send.GetOr("提交"))
          && (page.step.Some? ==> "step" in form && form["step"] == page.step.value)
          && (page.step.None? ==> Payload.SameAt(form, page.hidden, "step"))
          && forall key ::
            key != "send" && key != "step" && !Payload.Slot(key, rows) ==> Payload.SameAt(form, page.hidden, key))
  }

  lemma StepKeepsRow(form: Payload.Form, ops: seq<Op>, k: nat, step: string)
    requires Payload.RowReads(form, ops, k)
    ensures Payload.RowReads(form["step" := step], ops, k)
  {
    var n := Digits.Decimal(k + 1);
    assert ("D" + n)[0] == 'D' && ("C" + n)[0] == 'C' && ("T" + n)[0] == 'T' && "step"[0] == 's';
  }

  lemma PayloadForPosts(ops: seq<Op>, variant: string, page: Page)
    ensures Posts(PayloadFor(ops, variant, page), ops, variant, page)
  {
    hide Payload.RowReads, Payload.Slot;
    var hidden, default := HiddenOf(page), DefaultRows(variant);
    Payload.BuiltFormPosts(ops, hidden, default);
    Payload.BuiltFormIsBuild(ops, hidden, default);
    if PayloadFor(ops, variant, page).Some? {
      var rows := Payload.RowsTotal(hidden, default);
      var built := Payload.BuiltForm(ops, hidden, default).value;
      Payload.StepIsNoSlot(rows);
      forall k: nat | k < rows ensures Payload.RowReads(PayloadFor(ops, variant, page).value.0, ops, k) {
        if page.step.Some? {
          StepKeepsRow(built, ops, k, page.step.value);
        }
      }
    }
  }

  lemma FormKeepsInv(s: State, reply: Option<Page>)
    requires Inv(s)
    ensures Inv(GotForm(s, reply))
  {
    hide Inv, JobOk, AuditsOk;
    if s.worker.Working? && s.worker.step.AwaitForm? {
      WorkingFacts(s);
      var k := s.worker.step;
      NoneAbove(s.logs[s.worker.t.job], FORM);
      NotBounced(s.logs[s.worker.t.job]);
      match reply
      case None =>
        if k.tried < MAX_CALLS {
          StepKeepsInv(s, GetForm(k.first, k.tried));
        } else {
          CloseAllKeepsInv(s, k.first, TransportFailed);
        }
      case Some(page) => ReadKeepsInv(s, page);
    }
  }

  lemma ReadKeepsInv(s: State, page: Page)
    requires Inv(s) && s.worker.Working? && s.worker.step.AwaitForm?
    ensures Inv(GotForm(s, Some(page)))
  {
    hide Inv, JobOk, LogOk, AuditsOk, CanLog, AtStep, PayloadFor, Drawn;
    WorkingFacts(s);
    var k := s.worker.step;
    var log, ops := s.logs[s.worker.t.job], s.worker.ops;
    var e := FormRead(page);
    PageRead(log, ops, k.first, k.tried, page);
    PayloadForDraws(ops, s.worker.t.variant, page);
    if page.bounce {
      EventKeepsInv(s, e, Close(k.first, AllRows(k.first, |ops|, StageExpired), Failed));
    } else {
      match PayloadFor(ops, s.worker.t.variant, page)
      case None => EventKeepsInv(s, e, Close(k.first, AllRows(k.first, |ops|, ParseFailed), Failed));
      case Some((payload, rows)) =>
        ReadyToPost(log, ops, k.first, page, payload, rows);
        EventKeepsInv(s, e, CheckBeforePost(k.first, payload, rows));
    }
  }

  lemma PageRead(log: seq<Event>, ops: seq<Op>, first: nat, tried: nat, page: Page)
    requires LogOk(log, ops) && log != [] && AtStep(AwaitForm(first, tried), log, ops)
    ensures Begun(log, first) && CanLog(log, ops, FormRead(page))
    ensures page.bounce ==>
      AtStep(Close(first, AllRows(first, |ops|, StageExpired), Failed), log + [FormRead(page)], ops)
    ensures !page.bounce ==>
      AtStep(Close(first, AllRows(first, |ops|, ParseFailed), Failed), log + [FormRead(page)], ops)
  {
    hide PostsDrawn;
    NoneAbove(log, FORM);
    NoneAbove(log, POST);
    NoneAbove(log, ANSWER);
    NotBounced(log);
    NumSnoc(log, FormRead(page));
    FindSnoc(log, FormRead(page));
    assert (log + [FormRead(page)])[1] == log[1];
    AllRowsMean(log + [FormRead(page)], ops, first, if page.bounce then StageExpired else ParseFailed);
  }

  lemma ReadyToPost(log: seq<Event>, ops: seq<Op>, first: nat, page: Page, payload: Payload.Form, rows: nat)
    requires Begun(log, first) && !page.bounce && Drawn(payload, rows, ops, page)
    ensures AtStep(CheckBeforePost(first, payload, rows), log + [FormRead(page)], ops)
  {
    hide Drawn;
    FindSnoc(log, FormRead(page));
    assert (log + [FormRead(page)])[1] == log[1];
  }

  lemma PostKeepsInv(s: State)
    requires Inv(s)
    ensures Inv(DoPost(s))
  {
    hide Inv, JobOk, LogOk, AuditsOk, CanLog;
    if s.worker.Working? && s.worker.step.SendPost? {
      WorkingFacts(s);
      var k := s.worker.step;
      PostCounted(s.logs[s.worker.t.job], s.worker.ops, k.first, k.payload, k.rows, k.tried);
      EventKeepsInv(s, Post(k.payload, k.rows), AwaitPost(k.first, k.payload, k.rows, k.tried + 1));
    }
  }

  lemma PostCounted(log: seq<Event>, ops: seq<Op>, first: nat, payload: Payload.Form, rows: nat, tried: nat)
    requires log != [] && AtStep(SendPost(first, payload, rows, tried), log, ops)
    ensures CanLog(log, ops, Post(payload, rows))
    ensures AtStep(AwaitPost(first, payload, rows, tried + 1), log + [Post(payload, rows)], ops)
  {
    hide DrawnFrom;
    NumSnoc(log, Post(payload, rows));
    FindSnoc(log, Post(payload, rows));
    assert (log + [Post(payload, rows)])[1] == log[1];
  }

  lemma AnswerKeepsInv(s: State, reply: Option<Reply>)
    requires Inv(s)
    ensures Inv(GotAnswer(s, reply))
  {
    hide Inv, JobOk, AuditsOk;
    if s.worker.Working? && s.worker.step.AwaitPost? {
      WorkingFacts(s);
      var k := s.worker.step;
      NotBounced(s.logs[s.worker.t.job]);
      match reply
      case None =>
        if k.tried < MAX_CALLS {
          StepKeepsInv(s, SendPost(k.first, k.payload, k.rows, k.tried));
        } else {
          CloseAllKeepsInv(s, k.first, TransportFailed);
        }
      case Some(LoginPage) => BouncedKeepsInv(s);
      case Some(Classified(v)) => ClassifiedKeepsInv(s, v);
    }
  }

  lemma BouncedKeepsInv(s: State)
    requires Inv(s) && s.worker.Working? && s.worker.step.AwaitPost?
    ensures Inv(GotAnswer(s, Some(LoginPage)))
  {
    hide Inv, JobOk, LogOk, AuditsOk, CanLog;
    WorkingFacts(s);
    var k := s.worker.step;
    BouncedCounted(s.logs[s.worker.t.job], s.worker.ops, k.first);
    EventKeepsInv(s, Bounced, Close(k.first, AllRows(k.first, |s.worker.ops|, StageExpired), Failed));
  }

  lemma BouncedCounted(log: seq<Event>, ops: seq<Op>, first: nat)
    requires LogOk(log, ops) && Begun(log, first) && Rank(log[|log| - 1]) == POST
    ensures CanLog(log, ops, Bounced)
    ensures AtStep(Close(first, AllRows(first, |ops|, StageExpired), Failed), log + [Bounced], ops)
  {
    hide PostsDrawn, DrawnFrom;
    NoneAbove(log, ANSWER);
    NumSnoc(log, Bounced);
    FindSnoc(log, Bounced);
    AllRowsMean(log + [Bounced], ops, first, StageExpired);
    assert (log + [Bounced])[1] == log[1];
  }

  lemma ClassifiedKeepsInv(s: State, v: Verdicts)
    requires Inv(s) && s.worker.Working? && s.worker.step.AwaitPost?
    ensures Inv(GotAnswer(s, Some(Classified(v))))
  {
    hide Inv, JobOk, LogOk, AuditsOk, CanLog;
    WorkingFacts(s);
    var k := s.worker.step;
    var log := s.logs[s.worker.t.job];
    var e := Answer(v);
    var retried := k.tried > 1;
    var updates := FirstUpdates(k.first, s.worker.ops, v, retried);
    AnswerWeighed(log, s.worker.ops, k.first, v, retried);
    if retried && Reconcile.AnyUnknown(updates) {
      EventKeepsInv(s, e, ReloadJar(k.first, updates));
    } else {
      EventKeepsInv(s, e, Close(k.first, updates, Done));
    }
  }

  lemma AnswerWeighed(log: seq<Event>, ops: seq<Op>, first: nat, v: Verdicts, retried: bool)
    requires LogOk(log, ops) && Begun(log, first) && Rank(log[|log| - 1]) == POST
    requires retried <==> Num(log, POST) > 1
    ensures CanLog(log, ops, Answer(v))
    ensures AtStep(Close(first, FirstUpdates(first, ops, v, retried), Done), log + [Answer(v)], ops)
    ensures retried ==> AtStep(ReloadJar(first, FirstUpdates(first, ops, v, retried)), log + [Answer(v)], ops)
  {
    hide PostsDrawn, DrawnFrom, Means, RowMeans, FirstOutcome;
    NoneAbove(log, ANSWER);
    AnswerMeans(log, ops, first, v, retried);
    assert (log + [Answer(v)])[1] == log[1];
  }

  lemma AnswerMeans(log: seq<Event>, ops: seq<Op>, first: nat, v: Verdicts, retried: bool)
    requires log != [] && InOrder(log) && Rank(log[|log| - 1]) == POST
    requires retried <==> Num(log, POST) > 1
    ensures FindAnswer(log + [Answer(v)]) == Some(v) && FindSlt(log + [Answer(v)]).None?
    ensures Num(log + [Answer(v)], POST) == Num(log, POST)
    ensures UpdatesFor(FirstUpdates(first, ops, v, retried), first, ops)
    ensures Means(log + [Answer(v)], ops, FirstUpdates(first, ops, v, retried))
  {
    hide Means, UpdatesFor, FirstUpdates;
    NoneAbove(log, READ);
    NumSnoc(log, Answer(v));
    FindSnoc(log, Answer(v));
    FirstUpdatesMean(log + [Answer(v)], ops, first, v, retried);
  }

  lemma FirstUpdatesMean(log: seq<Event>, ops: seq<Op>, first: nat, v: Verdicts, retried: bool)
    requires FindAnswer(log) == Some(v) && FindSlt(log).None?
    requires retried <==> Num(log, POST) > 1
    ensures UpdatesFor(FirstUpdates(first, ops, v, retried), first, ops)
    ensures Means(log, ops, FirstUpdates(first, ops, v, retried))
  {
    hide RowMeans, FirstOutcome, Num, FindAnswer, FindSlt;
    var updates := FirstUpdates(first, ops, v, retried);
    forall k | 0 <= k < |ops| ensures RowMeans(log, ops[k], updates[k].outcome, updates[k].schoolMsg) {
      FirstRowMeans(log, ops[k], v);
    }
  }

  lemma FirstRowMeans(log: seq<Event>, op: Op, v: Verdicts)
    requires FindAnswer(log) == Some(v) && FindSlt(log).None?
    ensures RowMeans(log, op, FirstOutcome(VerdictOf(v, op.code), Num(log, POST) > 1), VerdictOf(v, op.code).schoolMsg)
  {
  }

  lemma AskKeepsInv(s: State)
    requires Inv(s)
    ensures Inv(DoAskSlt(s))
  {
    hide Inv, JobOk, LogOk, AuditsOk, CanLog;
    if s.worker.Working? && s.worker.step.AskSlt? {
      WorkingFacts(s);
      var k := s.worker.step;
      AskCounted(s.logs[s.worker.t.job], s.worker.ops, k.first, k.updates);
      EventKeepsInv(s, SltAsked, AwaitSlt(k.first, k.updates));
    }
  }

  lemma AskCounted(log: seq<Event>, ops: seq<Op>, first: nat, updates: seq<Update>)
    requires LogOk(log, ops) && log != [] && AtStep(AskSlt(first, updates), log, ops)
    ensures CanLog(log, ops, SltAsked) && AtStep(AwaitSlt(first, updates), log + [SltAsked], ops)
  {
    NoneAbove(log, ASK);
    NumSnoc(log, SltAsked);
    FindSnoc(log, SltAsked);
    assert (log + [SltAsked])[1] == log[1];
  }

  lemma SltKeepsInv(s: State, items: Option<seq<Reconcile.Item>>)
    requires Inv(s)
    ensures Inv(GotSlt(s, items))
  {
    hide Inv, JobOk, LogOk, AuditsOk, CanLog;
    if s.worker.Working? && s.worker.step.AwaitSlt? && |s.worker.step.updates| == |s.worker.ops| {
      WorkingFacts(s);
      var k := s.worker.step;
      var log := s.logs[s.worker.t.job];
      match items
      case None =>
        WeighingMeans(log, s.worker.ops, k.first, k.updates);
        StepKeepsInv(s, Close(k.first, k.updates, Done));
      case Some(list) =>
        SltSettles(log, s.worker.ops, k.first, k.updates, list);
        EventKeepsInv(s, SltRead(list), Close(k.first, Reconcile.Reconciled(k.updates, s.worker.ops, list), Done));
    }
  }

  lemma WeighingMeans(log: seq<Event>, ops: seq<Op>, first: nat, updates: seq<Update>)
    requires Weighing(log, first, updates, ops)
    ensures Means(log, ops, updates)
  {
  }

  lemma SltSettles(log: seq<Event>, ops: seq<Op>, first: nat, updates: seq<Update>, list: seq<Reconcile.Item>)
    requires LogOk(log, ops) && Weighing(log, first, updates, ops) && Rank(log[|log| - 1]) == ASK
    ensures CanLog(log, ops, SltRead(list))
    ensures AtStep(Close(first, Reconcile.Reconciled(updates, ops, list), Done), log + [SltRead(list)], ops)
  {
    CanRead(log, ops, list);
    SettledUpdatesMean(log, ops, first, updates, list);
    Closable(log, ops, first, Reconcile.Reconciled(updates, ops, list), list);
  }

  lemma CanRead(log: seq<Event>, ops: seq<Op>, list: seq<Reconcile.Item>)
    requires LogOk(log, ops) && Inserted(log) && Rank(log[|log| - 1]) == ASK
    ensures CanLog(log, ops, SltRead(list))
  {
    NoneAbove(log, READ);
  }

  lemma Closable(log: seq<Event>, ops: seq<Op>, first: nat, updates: seq<Update>, list: seq<Reconcile.Item>)
    requires Begun(log, first) && UpdatesFor(updates, first, ops) && Means(log + [SltRead(list)], ops, updates)
    ensures AtStep(Close(first, updates, Done), log + [SltRead(list)], ops)
  {
    assert (log + [SltRead(list)])[1] == log[1];
  }

  lemma SettledUpdatesMean(log: seq<Event>, ops: seq<Op>, first: nat, updates: seq<Update>, list: seq<Reconcile.Item>)
    requires Weighing(log, first, updates, ops)
    ensures UpdatesFor(Reconcile.Reconciled(updates, ops, list), first, ops)
    ensures Means(log + [SltRead(list)], ops, Reconcile.Reconciled(updates, ops, list))
  {
    var settled := Reconcile.Reconciled(updates, ops, list);
    Reconcile.ReconciledSettles(updates, ops, list);
    forall k | 0 <= k < |ops|
      ensures settled[k].audit == first + k
      ensures RowMeans(log + [SltRead(list)], ops[k], settled[k].outcome, settled[k].schoolMsg)
    {
      assert updates[k].audit == first + k;
      SettledRowMeans(log, ops[k], updates[k], settled[k], list);
    }
  }

  lemma SettledRowMeans(log: seq<Event>, op: Op, u: Update, settled: Update, list: seq<Reconcile.Item>)
    requires FindAnswer(log).Some? && Num(log, POST) >= 2
    requires var verdict := VerdictOf(FindAnswer(log).value, op.code);
      u.outcome == FirstOutcome(verdict, true) && u.schoolMsg == verdict.schoolMsg
    requires !u.outcome.UnknownReconciled? ==> settled == u
    requires u.outcome.UnknownReconciled? ==>
      && settled.outcome == (if op.Add? == Reconcile.Held(list, op.code) then Success else Rejected)
      && settled.schoolMsg == Some(Reconcile.Note(op, Reconcile.Held(list, op.code)))
    ensures RowMeans(log + [SltRead(list)], op, settled.outcome, settled.schoolMsg)
  {
    NumSnoc(log, SltRead(list));
    FindSnoc(log, SltRead(list));
  }

  lemma CloseKeepsInv(s: State)
    requires Inv(s)
    ensures Inv(CloseJob(s))
  {
    hide Inv, JobOk, AuditsOk;
    if s.worker.Working? && s.worker.step.Close? {
      WorkingFacts(s);
      ClosedKeepsInv(s, s.worker.step.first, s.worker.step.updates, s.worker.step.status);
    }
  }

  lemma ClosedKeepsInv(s: State, first: nat, updates: seq<Update>, status: Status)
    requires Inv(s) && s.worker.Working? && s.worker.step == Close(first, updates, status)
    ensures Inv(CloseJob(s))
  {
    hide Inv, JobOk, AuditsOk, Means, UpdatesFor;
    WorkingFacts(s);
    var j := s.worker.t.job;
    var log := s.logs[j];
    var s' := CloseJob(s);
    NoneAbove(log, END);
    LogGrows(log, s.worker.ops, Closed);
    ClosingAudits(s.audits, j, log, s.worker.ops, s.jobs[j].payloadHash, first, updates);
    ClosingAdvances(s, first, updates, status);
    JobEnds(s.jobs[j], s'.jobs[j], log, true);
    JobLogs(s'.jobs[j], log, Closed, false);
    AdvanceKeepsInv(s, s');
  }

  lemma ClosingAdvances(s: State, first: nat, updates: seq<Update>, status: Status)
    requires s.worker.Working? && s.worker.t.job < |s.jobs| && |s.logs| == |s.jobs|
    requires s.worker.step == Close(first, updates, status) && !Active(status)
    requires OtherRowsKept(s.audits, ApplyOutcomes(s.audits, updates), s.worker.t.job)
    ensures var s' := CloseJob(s); var j := s.worker.t.job;
      && Advances(s, s') && s'.logs[j] == s.logs[j] + [Closed]
      && !Active(s'.jobs[j].status) && RowEnds(s.jobs[j], s'.jobs[j])
  {
  }

  lemma ClosingAudits(audits: seq<Audit>, j: nat, log: seq<Event>, ops: seq<Op>, hash: Hash, first: nat,
        updates: seq<Update>)
    requires Begun(log, first) && AuditsOk(audits, j, log, ops, hash)
    requires UpdatesFor(updates, first, ops) && Means(log, ops, updates)
    ensures AuditsOk(ApplyOutcomes(audits, updates), j, log + [Closed], ops, hash)
    ensures OtherRowsKept(audits, ApplyOutcomes(audits, updates), j)
  {
    var after := ApplyOutcomes(audits, updates);
    UpdatedRows(audits, j, ops, hash, first, updates);
    forall k | 0 <= k < |ops|
      ensures RowMeans(log + [Closed], ops[k], after[first + k].outcome, after[first + k].schoolMsg)
    {
      assert after[first + k].outcome == updates[k].outcome && after[first + k].schoolMsg == updates[k].schoolMsg;
      MeaningStays(log, ops[k], updates[k].outcome, updates[k].schoolMsg);
    }
    assert (log + [Closed])[1] == log[1];
  }

  lemma MeaningStays(log: seq<Event>, op: Op, outcome: Outcome, msg: Option<string>)
    requires RowMeans(log, op, outcome, msg)
    ensures RowMeans(log + [Closed], op, outcome, msg)
  {
    NumSnoc(log, Closed);
    FindSnoc(log, Closed);
  }

  lemma UpdatedRows(audits: seq<Audit>, j: nat, ops: seq<Op>, hash: Hash, first: nat, updates: seq<Update>)
    requires RowsOf(audits, j, ops, hash, first) && UpdatesFor(updates, first, ops)
    ensures var after := ApplyOutcomes(audits, updates);
      && |after| == |audits| && RowsOf(after, j, ops, hash, first) && OtherRowsKept(audits, after, j)
      && forall k :: 0 <= k < |ops| ==>
           after[first + k].outcome == updates[k].outcome && after[first + k].schoolMsg == updates[k].schoolMsg
  {
    var after := ApplyOutcomes(audits, updates);
    ApplyOutcomesRows(audits, updates, first);
    forall i | 0 <= i < |audits|
      ensures after[i].job == audits[i].job && (audits[i].job != j ==> after[i] == audits[i])
    {
      if first <= i < first + |ops| {
        assert updates[i - first].audit == i;
        assert after[first + (i - first)].job == audits[i].job;
      }
    }
    forall k | 0 <= k < |ops|
      ensures after[first + k].course == ops[k].code && after[first + k].action == ActionText(ops[k])
      ensures after[first + k].payloadHash == hash
      ensures after[first + k].outcome == updates[k].outcome && after[first + k].schoolMsg == updates[k].schoolMsg
    {
      assert updates[k].audit == first + k;
    }
  }

  lemma CrashKeepsInv(s: State)
    requires Inv(s)
    ensures Inv(Crash(s))
  {
    hide Inv, AuditsOk, AtStep, JobOk, LogOk;
    if s.worker.Working? {
      WorkingFacts(s);
      var j := s.worker.t.job;
      EndsLog(s.jobs[j], s.logs[j], Crashed);
      CrashedAudits(s.audits, j, s.logs[j], s.worker.ops, s.jobs[j].payloadHash);
      assert Crash(s).logs[j] == s.logs[j] + [Crashed];
      AdvanceKeepsInv(s, Crash(s));
    } else {
      EndingKeepsInv(s, Crash(s));
    }
  }

  /** The last event of a job, whatever came before. */
  lemma EndsLog(job: Job, log: seq<Event>, e: Event)
    requires JobOk(job, log, true) && Rank(e) == END
    requires e.Closed? ==> !Active(job.status)
    ensures JobOk(job, log + [e], false)
  {
    NoneAbove(log, END);
    LogGrows(log, job.ops, e);
  }

  lemma CrashedAudits(audits: seq<Audit>, j: nat, log: seq<Event>, ops: seq<Op>, hash: Hash)
    requires AuditsOk(audits, j, log, ops, hash) && log != [] && !IsOver(log)
    ensures AuditsOk(audits, j, log + [Crashed], ops, hash)
  {
    if Inserted(log) {
      AuditsLog(audits, j, log, Crashed, ops, hash);
    }
  }

  // ---------- taking a ticket ----------

  lemma ClaimKeepsInv(s: State)
    requires Inv(s)
    ensures Inv(TryClaim(s))
  {
    if s.worker.Claiming? {
      var t := s.worker.t;
      var s' := TryClaim(s);
      if Claimable(s.jobs[t.job], s.worker.cutoff) {
        ClaimedKeepsInv(s);
      } else {
        EndingKeepsInv(s, s');
      }
    }
  }

  lemma ClaimedKeepsInv(s: State)
    requires Inv(s) && s.worker.Claiming? && Claimable(s.jobs[s.worker.t.job], s.worker.cutoff)
    ensures Inv(TryClaim(s))
  {
    hide JobsOk, TicketOk;
    var s' := TryClaim(s);
    ClaimedKeepsJobs(s);
    ClaimedKeepsWorker(s);
    assert Evolves(s.jobs, s'.jobs);
    TicketsEvolve(s, s', |s.handlers|);
    forall token ensures TokenOk(s', token) {
      assert TokenOk(s, token);
    }
  }

  lemma ClaimedKeepsJobs(s: State)
    requires JobsOk(s) && WorkerOk(s) && s.worker.Claiming? && Claimable(s.jobs[s.worker.t.job], s.worker.cutoff)
    ensures JobsOk(TryClaim(s))
  {
    hide JobOk, AuditsOk;
    var t := s.worker.t;
    var s' := TryClaim(s);
    forall k | 0 <= k < |s'.jobs|
      ensures JobOk(s'.jobs[k], s'.logs[k], Busy(s', k))
      ensures AuditsOk(s'.audits, k, s'.logs[k], s'.jobs[k].ops, s'.jobs[k].payloadHash)
    {
      assert JobOk(s.jobs[k], s.logs[k], Busy(s, k));
      assert AuditsOk(s.audits, k, s.logs[k], s.jobs[k].ops, s.jobs[k].payloadHash);
      if k == t.job {
        JobStarts(s.jobs[k], s.logs[k], s.worker.cutoff, s.now);
        AuditsStart(s.audits, k, s.jobs[k].ops, s.jobs[k].payloadHash);
        assert s'.logs[k] == [Claimed];
      }
    }
  }

  lemma ClaimedKeepsWorker(s: State)
    requires JobsOk(s) && WorkerOk(s) && s.worker.Claiming? && Claimable(s.jobs[s.worker.t.job], s.worker.cutoff)
    ensures WorkerOk(TryClaim(s))
  {
    hide LogOk, AuditsOk;
    var j := s.worker.t.job;
    assert JobOk(s.jobs[j], s.logs[j], Busy(s, j));
    assert TryClaim(s).logs[j] == [Claimed];
  }

  lemma AuditsStart(audits: seq<Audit>, j: nat, ops: seq<Op>, hash: Hash)
    requires AuditsOk(audits, j, [], ops, hash)
    ensures AuditsOk(audits, j, [Claimed], ops, hash)
  {
  }

  lemma JobStarts(job: Job, log: seq<Event>, cutoff: int, now: int)
    requires JobOk(job, log, false) && Claimable(job, cutoff)
    ensures log == [] && JobOk(job.(status := Running, startedAt := Some(now)), [Claimed], true)
  {
    FirstClaim(job.ops);
  }

  lemma PopKeepsInv(s: State, i: nat)
    requires Inv(s)
    ensures Inv(Pop(s, i))
  {
    if s.worker.Idle? && i < |s.queue| {
      var s1 := s.(queue := s.queue[..i] + s.queue[i + 1..]);
      QueueKeepsInv(s, s1);
      EndingKeepsInv(s1, Pop(s, i));
    }
  }

  lemma ClockSideKeepsInv(s: State, a: Action)
    requires Inv(s)
    requires a.Tick? || a.Login? || a.WorkerSweepClock? || a.WorkerSweep?
    ensures Inv(Apply(s, a))
  {
    hide JobsOk, TicketOk, HashesUnique, WorkerOk;
    EndingKeepsInv(s, Apply(s, a));
  }

  lemma TicketSideKeepsInv(s: State, a: Action)
    requires Inv(s)
    requires a.WorkerReadClock? || a.WorkerReadUnclaimed? || a.WorkerCancel?
    ensures Inv(Apply(s, a))
  {
    hide Inv;
    match a
    case WorkerReadClock => ReadClockKeepsInv(s);
    case WorkerReadUnclaimed => ReadUnclaimedKeepsInv(s);
    case WorkerCancel => CancelKeepsInv(s);
  }

  lemma ReadUnclaimedKeepsInv(s: State)
    requires Inv(s)
    ensures Inv(ReadUnclaimed(s))
  {
    hide JobsOk, HashesUnique, WorkerOk, TicketOk;
    EndingKeepsInv(s, ReadUnclaimed(s));
  }

  lemma CancelKeepsInv(s: State)
    requires Inv(s)
    ensures Inv(CancelTicket(s))
  {
    hide JobsOk, HashesUnique, WorkerOk, TicketOk;
    EndingKeepsInv(s, CancelTicket(s));
  }

  lemma ReadClockKeepsInv(s: State)
    requires Inv(s)
    ensures Inv(ReadClock(s))
  {
    hide JobsOk, HashesUnique, WorkerOk;
    if s.worker.Popped? {
      assert TicketOk(s.jobs, s.worker.t);
      EndingKeepsInv(s, ReadClock(s));
    }
  }

  // ---------- every run ----------

  lemma BeforeAnswerKeepsInv(s: State, a: Action)
    requires Inv(s)
    requires a.WorkerInsertAudits? || a.WorkerFail? || a.WorkerJar? || a.WorkerCheckStatus? || a.WorkerGet?
      || a.WorkerForm?
    ensures Inv(Apply(s, a))
  {
    hide Inv;
    match a
    case WorkerInsertAudits(ok) => InsertAuditsKeepsInv(s, ok);
    case WorkerFail => FailKeepsInv(s);
    case WorkerJar(alive) => JarKeepsInv(s, alive);
    case WorkerCheckStatus => CheckStatusKeepsInv(s);
    case WorkerGet => GetKeepsInv(s);
    case WorkerForm(page) => FormKeepsInv(s, page);
  }

  lemma FromPostKeepsInv(s: State, a: Action)
    requires Inv(s)
    requires a.WorkerPost? || a.WorkerAnswer? || a.WorkerAskSlt? || a.WorkerSlt? || a.WorkerClose? || a.WorkerCrash?
    ensures Inv(Apply(s, a))
  {
    hide Inv;
    match a
    case WorkerPost => PostKeepsInv(s);
    case WorkerAnswer(reply) => AnswerKeepsInv(s, reply);
    case WorkerAskSlt => AskKeepsInv(s);
    case WorkerSlt(items) => SltKeepsInv(s, items);
    case WorkerClose => CloseKeepsInv(s);
    case WorkerCrash => CrashKeepsInv(s);
  }

  lemma TakeStepsKeepInv(s: State, a: Action)
    requires Inv(s)
    requires a.MintToken? || a.TakeToken? || a.InsertJob? || a.PushTicket? || a.PopTicket? || a.WorkerClaim?
    ensures Inv(Apply(s, a))
  {
    hide Inv;
    match a
    case MintToken(token, record, ttl) => MintKeepsInv(s, token, record, ttl);
    case TakeToken(token, student, session) => TakeKeepsInv(s, token, student, session);
    case InsertJob(h) => InsertKeepsInv(s, h);
    case PushTicket(h) => PushKeepsInv(s, h);
    case PopTicket(i) => PopKeepsInv(s, i);
    case WorkerClaim => ClaimKeepsInv(s);
  }

  lemma ApplyKeepsInv(s: State, a: Action)
    requires Inv(s)
    ensures Inv(Apply(s, a))
  {
    hide *;
    if a.WorkerInsertAudits? || a.WorkerFail? || a.WorkerJar? || a.WorkerCheckStatus? || a.WorkerGet? || a.WorkerForm? {
      BeforeAnswerKeepsInv(s, a);
    } else if a.WorkerPost? || a.WorkerAnswer? || a.WorkerAskSlt? || a.WorkerSlt? || a.WorkerClose? || a.WorkerCrash? {
      FromPostKeepsInv(s, a);
    } else if a.VerifyPassword? || a.CheckRecord? || a.Abandon? || a.Redeliver? || a.Lose? {
      SubmitSideKeepsInv(s, a);
    } else if a.MintToken? || a.TakeToken? || a.InsertJob? || a.PushTicket? || a.PopTicket? || a.WorkerClaim? {
      TakeStepsKeepInv(s, a);
    } else if a.WorkerReadClock? || a.WorkerReadUnclaimed? || a.WorkerCancel? {
      TicketSideKeepsInv(s, a);
    } else {
      ClockSideKeepsInv(s, a);
    }
  }

  lemma {:induction false} RunKeepsInv(s: State, actions: seq<Action>)
    requires Inv(s)
    ensures Inv(Run(s, actions))
  {
    if actions != [] {
      RunKeepsInv(s, actions[..|actions| - 1]);
      ApplyKeepsInv(Run(s, actions[..|actions| - 1]), actions[|actions| - 1]);
    }
  }

  lemma EveryRunOk(now: int, dwell: nat, actions: seq<Action>)
    ensures Inv(Run(Initial(now, dwell), actions))
  {
    var s := Initial(now, dwell);
    forall token ensures TokenOk(s, token) {
    }
    RunKeepsInv(s, actions);
  }
}
