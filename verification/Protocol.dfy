/** The write-submission protocol as a step system: previews mint, submit
    handlers spend tokens and push tickets, logins supersede, the single worker
    executes and sweeps, and anything may crash. One step is one committed
    statement, one Redis command, or one call to the school being sent or
    answered; between two steps of one actor any other actor may move. */
module Protocol {
  import opened Wrappers
  import opened Ops
  import opened Segments
  import opened Ledger
  import Reconcile
  import Payload

  const TRANSPORT_RETRIES: nat := 2
  const MAX_CALLS: nat := TRANSPORT_RETRIES + 1
  const VARIANT_SSFORM := "ssform"
  const VARIANT_STAGE5 := "stage5"

  type Token = string

  datatype Record = Record(student: string, segments: string, variant: string, formUrl: string)
  datatype Parked = Parked(record: Record, expires: int)
  datatype Ticket = Ticket(job: nat, session: string, student: string, segments: string, variant: string,
      formUrl: string)

  // ---------- what the school answers ----------

  datatype VerdictKind = Accepted | Refused | Unparsed
  datatype Verdict = Verdict(kind: VerdictKind, schoolMsg: Option<string>, duplicateLike: bool)
  type Verdicts = map<string, Verdict>

  /** Classification is total on the batch: a code the page does not show is
      unparsed. */
  function VerdictOf(v: Verdicts, code: string): Verdict {
    if code in v then v[code] else Verdict(Unparsed, None, false)
  }

  datatype Page = Page(bounce: bool, action: Option<string>, hidden: Payload.Form, send: Option<string>,
      step: Option<string>)
  datatype Reply = LoginPage | Classified(verdicts: Verdicts)

  /** The hidden fields the payload is built on: `send` as the page has it, unless
      it is hidden already. */
  function HiddenOf(page: Page): Payload.Form {
    if page.send.Some? && Payload.SEND_NAME !in page.hidden then page.hidden[Payload.SEND_NAME := page.send.value]
    else page.hidden
  }

  function DefaultRows(variant: string): nat {
    if variant == VARIANT_SSFORM then Payload.SSPRS_ROWS else Payload.STAGE5_ROWS
  }

  /** The payload the form yields for the batch, with its row count. */
  function PayloadFor(ops: seq<Op>, variant: string, page: Page): Option<(Payload.Form, nat)> {
    if page.action.None? || variant !in {VARIANT_SSFORM, VARIANT_STAGE5} then None
    else
      var hidden := HiddenOf(page);
      var default := DefaultRows(variant);
      match Payload.BuiltForm(ops, hidden, default)
      case Err(_) => None
      case Ok(form) =>
        Some((if page.step.Some? then form["step" := page.step.value] else form, Payload.RowsTotal(hidden, default)))
  }

  // ---------- the state ----------

  /** A submit request in flight. `Gone` is one that answered or died. */
  datatype Handler =
    | Taken(token: Token, record: Record, student: string, session: string)
    | Verified(token: Token, record: Record, student: string, session: string)
    | Checked(token: Token, record: Record, student: string, session: string, ops: seq<Op>)
    | Pushing(ticket: Ticket)
    | Gone

  /** Where the execution of a claimed job stands. */
  datatype Step =
    | InsertAudits
    | SinkDown
    | LoadJar(first: nat)
    | CheckBeforeForm(first: nat)
    | GetForm(first: nat, tried: nat)
    | AwaitForm(first: nat, tried: nat)
    | CheckBeforePost(first: nat, payload: Payload.Form, rows: nat)
    | SendPost(first: nat, payload: Payload.Form, rows: nat, tried: nat)
    | AwaitPost(first: nat, payload: Payload.Form, rows: nat, tried: nat)
    | ReloadJar(first: nat, updates: seq<Update>)
    | AskSlt(first: nat, updates: seq<Update>)
    | AwaitSlt(first: nat, updates: seq<Update>)
    | Close(first: nat, updates: seq<Update>, status: Status)

  datatype Worker =
    | Idle
    | Sweeping(cutoff: int)
    | Popped(t: Ticket)
    | Claiming(t: Ticket, ops: seq<Op>, cutoff: int)
    | Unclaimed(t: Ticket)
    | Stale(t: Ticket)
    | Working(t: Ticket, ops: seq<Op>, step: Step)

  /** What happened to one job, in order. */
  datatype Event =
    | Claimed
    | AuditsInserted(first: nat)
    | FormGet
    | FormRead(page: Page)
    | Post(payload: Payload.Form, rows: nat)
    | Answer(verdicts: Verdicts)
    | Bounced
    | SltAsked
    | SltRead(items: seq<Reconcile.Item>)
    | Closed
    | Crashed

  /** `mints`, `origins` and `logs` are history: every mint, the token each job
      was created under, and what happened to each job. */
  datatype State = State(
    now: int,
    dwell: nat,
    students: set<string>,
    confirms: map<Token, Parked>,
    mints: seq<Token>,
    handlers: seq<Handler>,
    queue: seq<Ticket>,
    jobs: seq<Job>,
    audits: seq<Audit>,
    origins: seq<Token>,
    logs: seq<seq<Event>>,
    worker: Worker)

  function Initial(now: int, dwell: nat): State {
    State(now, dwell, {}, map[], [], [], [], [], [], [], [], Idle)
  }

  // ---------- submit handlers ----------

  function Mint(s: State, token: Token, record: Record, ttl: nat): State {
    s.(confirms := s.confirms[token := Parked(record, s.now + ttl)], mints := s.mints + [token])
  }

  /** GETDEL: the token is spent even when the record is expired or belongs to
      another student. */
  function Take(s: State, token: Token, student: string, session: string): State {
    if token !in s.confirms then s
    else
      var parked := s.confirms[token];
      var spent := s.(confirms := s.confirms - {token});
      if s.now < parked.expires && parked.record.student == student then
        spent.(handlers := s.handlers + [Taken(token, parked.record, student, session)])
      else spent
  }

  function Verify(s: State, h: nat, accepted: bool): State {
    if h < |s.handlers| && s.handlers[h].Taken? then
      var x := s.handlers[h];
      s.(handlers := s.handlers[h := if accepted then Verified(x.token, x.record, x.student, x.session) else Gone])
    else s
  }

  function Check(s: State, h: nat): State {
    if h < |s.handlers| && s.handlers[h].Verified? then
      var x := s.handlers[h];
      match Parse(x.record.segments)
      case Err(_) => s.(handlers := s.handlers[h := Gone])
      case Ok(ops) =>
        if x.student !in s.students || HasActive(s.jobs, PayloadHash(x.student, ops)) then
          s.(handlers := s.handlers[h := Gone])
        else s.(handlers := s.handlers[h := Checked(x.token, x.record, x.student, x.session, ops)])
    else s
  }

  function TicketFor(job: nat, x: Handler): Ticket
    requires x.Checked?
  {
    Ticket(job, x.session, x.student, x.record.segments, x.record.variant, x.record.formUrl)
  }

  function InsertRow(s: State, h: nat): State {
    if h < |s.handlers| && s.handlers[h].Checked? then
      var x := s.handlers[h];
      var hash := PayloadHash(x.student, x.ops);
      if HasActive(s.jobs, hash) then s.(handlers := s.handlers[h := Gone])
      else
        s.(jobs := s.jobs + [NewJob(x.student, x.ops, hash, s.now)],
           origins := s.origins + [x.token],
           logs := s.logs + [[]],
           handlers := s.handlers[h := Pushing(TicketFor(|s.jobs|, x))])
    else s
  }

  function Push(s: State, h: nat): State {
    if h < |s.handlers| && s.handlers[h].Pushing? then
      s.(queue := s.queue + [s.handlers[h].ticket], handlers := s.handlers[h := Gone])
    else s
  }

  // ---------- the worker ----------

  function Log(s: State, j: nat, e: Event): seq<seq<Event>> {
    if j < |s.logs| then s.logs[j := s.logs[j] + [e]] else s.logs
  }

  function Go(s: State, step: Step): State
    requires s.worker.Working?
  {
    s.(worker := s.worker.(step := step))
  }

  /** `_terminal_updates`: one outcome for the whole batch. */
  function AllRows(first: nat, n: nat, outcome: Outcome): seq<Update> {
    seq(n, k requires 0 <= k < n => Update(first + k, outcome, None))
  }

  function CloseAll(s: State, first: nat, outcome: Outcome): State
    requires s.worker.Working?
  {
    Go(s, Close(first, AllRows(first, |s.worker.ops|, outcome), Failed))
  }

  function FirstOutcome(v: Verdict, retried: bool): Outcome {
    match v.kind
    case Accepted => Success
    case Unparsed => ParseFailed
    case Refused => if retried && v.duplicateLike then UnknownReconciled else Rejected
  }

  function FirstUpdates(first: nat, ops: seq<Op>, v: Verdicts, retried: bool): seq<Update> {
    seq(|ops|, k requires 0 <= k < |ops| =>
      var verdict := VerdictOf(v, ops[k].code);
      Update(first + k, FirstOutcome(verdict, retried), verdict.schoolMsg))
  }

  function Pop(s: State, i: nat): State {
    if s.worker.Idle? && i < |s.queue| then
      s.(queue := s.queue[..i] + s.queue[i + 1..], worker := Popped(s.queue[i]))
    else s
  }

  function ReadClock(s: State): State {
    if s.worker.Popped? then
      match Parse(s.worker.t.segments)
      case Err(_) => s.(jobs := Finish(s.jobs, s.worker.t.job, Failed, s.now), worker := Idle)
      case Ok(ops) => s.(worker := Claiming(s.worker.t, ops, s.now - s.dwell))
    else s
  }

  function TryClaim(s: State): State {
    if s.worker.Claiming? then
      var t := s.worker.t;
      if t.job < |s.jobs| && Claimable(s.jobs[t.job], s.worker.cutoff) then
        s.(jobs := Claim(s.jobs, t.job, s.worker.cutoff, s.now),
           logs := Log(s, t.job, Claimed),
           worker := Working(t, s.worker.ops, InsertAudits))
      else s.(worker := Unclaimed(t))
    else s
  }

  function ReadUnclaimed(s: State): State {
    if s.worker.Unclaimed? then
      var t := s.worker.t;
      s.(worker := if t.job < |s.jobs| && s.jobs[t.job].status.Queued? then Stale(t) else Idle)
    else s
  }

  function CancelTicket(s: State): State {
    if s.worker.Stale? then
      s.(jobs := Finish(s.jobs, s.worker.t.job, Cancelled, s.now), worker := Idle)
    else s
  }

  function DoInsertAudits(s: State, ok: bool): State {
    if s.worker.Working? && s.worker.step.InsertAudits? then
      var t := s.worker.t;
      if ok then
        Go(s.(audits := s.audits + PendingRows(t.job, s.worker.ops, PayloadHash(t.student, s.worker.ops)),
              logs := Log(s, t.job, AuditsInserted(|s.audits|))), LoadJar(|s.audits|))
      else Go(s, SinkDown)
    else s
  }

  function FailJob(s: State): State {
    if s.worker.Working? && s.worker.step.SinkDown? then
      s.(jobs := Finish(s.jobs, s.worker.t.job, Failed, s.now), logs := Log(s, s.worker.t.job, Closed), worker := Idle)
    else s
  }

  function JarAnswer(s: State, alive: bool): State {
    if !s.worker.Working? then s
    else
      match s.worker.step
      case LoadJar(first) => if alive then Go(s, CheckBeforeForm(first)) else CloseAll(s, first, StageExpired)
      case ReloadJar(first, updates) => Go(s, if alive then AskSlt(first, updates) else Close(first, updates, Done))
      case _ => s
  }

  function CheckStatus(s: State): State {
    if !s.worker.Working? || s.worker.t.job >= |s.jobs| then s
    else
      var running := s.jobs[s.worker.t.job].status.Running?;
      match s.worker.step
      case CheckBeforeForm(first) => if running then Go(s, GetForm(first, 0)) else CloseAll(s, first, Superseded)
      case CheckBeforePost(first, payload, rows) =>
        if running then Go(s, SendPost(first, payload, rows, 0)) else CloseAll(s, first, Superseded)
      case _ => s
  }

  function DoGet(s: State): State {
    if s.worker.Working? && s.worker.step.GetForm? then
      var k := s.worker.step;
      Go(s.(logs := Log(s, s.worker.t.job, FormGet)), AwaitForm(k.first, k.tried + 1))
    else s
  }

  function GotForm(s: State, reply: Option<Page>): State {
    if s.worker.Working? && s.worker.step.AwaitForm? then
      var k := s.worker.step;
      match reply
      case None => if k.tried < MAX_CALLS then Go(s, GetForm(k.first, k.tried))
        else CloseAll(s, k.first, TransportFailed)
      case Some(page) =>
        var told := s.(logs := Log(s, s.worker.t.job, FormRead(page)));
        if page.bounce then CloseAll(told, k.first, StageExpired)
        else
          match PayloadFor(s.worker.ops, s.worker.t.variant, page)
          case None => CloseAll(told, k.first, ParseFailed)
          case Some((payload, rows)) => Go(told, CheckBeforePost(k.first, payload, rows))
    else s
  }

  function DoPost(s: State): State {
    if s.worker.Working? && s.worker.step.SendPost? then
      var k := s.worker.step;
      Go(s.(logs := Log(s, s.worker.t.job, Post(k.payload, k.rows))),
        AwaitPost(k.first, k.payload, k.rows, k.tried + 1))
    else s
  }

  function GotAnswer(s: State, reply: Option<Reply>): State {
    if s.worker.Working? && s.worker.step.AwaitPost? then
      var k := s.worker.step;
      match reply
      case None =>
        if k.tried < MAX_CALLS then Go(s, SendPost(k.first, k.payload, k.rows, k.tried))
          else CloseAll(s, k.first, TransportFailed)
      case Some(LoginPage) => CloseAll(s.(logs := Log(s, s.worker.t.job, Bounced)), k.first, StageExpired)
      case Some(Classified(v)) =>
        var retried := k.tried > 1;
        var updates := FirstUpdates(k.first, s.worker.ops, v, retried);
        var told := s.(logs := Log(s, s.worker.t.job, Answer(v)));
        if retried && Reconcile.AnyUnknown(updates) then Go(told, ReloadJar(k.first, updates))
        else Go(told, Close(k.first, updates, Done))
    else s
  }

  function DoAskSlt(s: State): State {
    if s.worker.Working? && s.worker.step.AskSlt? then
      var k := s.worker.step;
      Go(s.(logs := Log(s, s.worker.t.job, SltAsked)), AwaitSlt(k.first, k.updates))
    else s
  }

  function GotSlt(s: State, items: Option<seq<Reconcile.Item>>): State {
    if s.worker.Working? && s.worker.step.AwaitSlt? && |s.worker.step.updates| == |s.worker.ops| then
      var k := s.worker.step;
      match items
      case None => Go(s, Close(k.first, k.updates, Done))
      case Some(list) =>
        Go(s.(logs := Log(s, s.worker.t.job, SltRead(list))),
           Close(k.first, Reconcile.Reconciled(k.updates, s.worker.ops, list), Done))
    else s
  }

  /** `_finalize`: outcomes and terminal status in one transaction. */
  function CloseJob(s: State): State {
    if s.worker.Working? && s.worker.step.Close? then
      var k := s.worker.step;
      s.(audits := ApplyOutcomes(s.audits, k.updates),
         jobs := Finish(s.jobs, s.worker.t.job, k.status, s.now),
         logs := Log(s, s.worker.t.job, Closed),
         worker := Idle)
    else s
  }

  /** An exception or a dead process: the ticket is abandoned where it stands. */
  function Crash(s: State): State {
    if s.worker.Working? then s.(logs := Log(s, s.worker.t.job, Crashed), worker := Idle)
    else s.(worker := Idle)
  }

  function SweepClock(s: State): State {
    if s.worker.Idle? then s.(worker := Sweeping(s.now - s.dwell)) else s
  }

  function Sweep(s: State): State {
    if s.worker.Sweeping? then s.(jobs := CancelStale(s.jobs, s.worker.cutoff, s.now), worker := Idle) else s
  }

  // ---------- every step ----------

  datatype Action =
    | Tick(d: nat)
    | MintToken(token: Token, record: Record, ttl: nat)
    | TakeToken(token: Token, student: string, session: string)
    | VerifyPassword(h: nat, accepted: bool)
    | CheckRecord(h: nat)
    | InsertJob(h: nat)
    | PushTicket(h: nat)
    | Abandon(h: nat)
    | Redeliver(i: nat)
    | Lose(i: nat)
    | Login(student: string)
    | PopTicket(i: nat)
    | WorkerReadClock
    | WorkerClaim
    | WorkerReadUnclaimed
    | WorkerCancel
    | WorkerInsertAudits(ok: bool)
    | WorkerFail
    | WorkerJar(alive: bool)
    | WorkerCheckStatus
    | WorkerGet
    | WorkerForm(page: Option<Page>)
    | WorkerPost
    | WorkerAnswer(reply: Option<Reply>)
    | WorkerAskSlt
    | WorkerSlt(items: Option<seq<Reconcile.Item>>)
    | WorkerClose
    | WorkerCrash
    | WorkerSweepClock
    | WorkerSweep

  /** An action of an actor other than the worker. */
  predicate Foreign(a: Action) {
    a.Tick? || a.MintToken? || a.TakeToken? || a.VerifyPassword? || a.CheckRecord? || a.InsertJob? || a.PushTicket?
    || a.Abandon? || a.Redeliver? || a.Lose? || a.Login?
  }

  /** One step; an action that is not possible in `s` leaves it unchanged. */
  function Apply(s: State, a: Action): State {
    match a
    case Tick(d) => s.(now := s.now + d)
    case MintToken(token, record, ttl) => Mint(s, token, record, ttl)
    case TakeToken(token, student, session) => Take(s, token, student, session)
    case VerifyPassword(h, accepted) => Verify(s, h, accepted)
    case CheckRecord(h) => Check(s, h)
    case InsertJob(h) => InsertRow(s, h)
    case PushTicket(h) => Push(s, h)
    case Abandon(h) => if h < |s.handlers| then s.(handlers := s.handlers[h := Gone]) else s
    case Redeliver(i) => if i < |s.queue| then s.(queue := s.queue + [s.queue[i]]) else s
    case Lose(i) => if i < |s.queue| then s.(queue := s.queue[..i] + s.queue[i + 1..]) else s
    case Login(student) => s.(students := s.students + {student}, jobs := Supersede(s.jobs, student, s.now))
    case PopTicket(i) => Pop(s, i)
    case WorkerReadClock => ReadClock(s)
    case WorkerClaim => TryClaim(s)
    case WorkerReadUnclaimed => ReadUnclaimed(s)
    case WorkerCancel => CancelTicket(s)
    case WorkerInsertAudits(ok) => DoInsertAudits(s, ok)
    case WorkerFail => FailJob(s)
    case WorkerJar(alive) => JarAnswer(s, alive)
    case WorkerCheckStatus => CheckStatus(s)
    case WorkerGet => DoGet(s)
    case WorkerForm(page) => GotForm(s, page)
    case WorkerPost => DoPost(s)
    case WorkerAnswer(reply) => GotAnswer(s, reply)
    case WorkerAskSlt => DoAskSlt(s)
    case WorkerSlt(items) => GotSlt(s, items)
    case WorkerClose => CloseJob(s)
    case WorkerCrash => Crash(s)
    case WorkerSweepClock => SweepClock(s)
    case WorkerSweep => Sweep(s)
  }

  function Run(s: State, actions: seq<Action>): State {
    if actions == [] then s else Apply(Run(s, actions[..|actions| - 1]), actions[|actions| - 1])
  }

  // Each action is its own step function.

  lemma GetIs(s: State)
    ensures Apply(s, WorkerGet) == DoGet(s)
  {
  }

  lemma FormIs(s: State, form: Option<Page>)
    ensures Apply(s, WorkerForm(form)) == GotForm(s, form)
  {
  }

  lemma PostIs(s: State)
    ensures Apply(s, WorkerPost) == DoPost(s)
  {
  }

  lemma AnswerIs(s: State, reply: Option<Reply>)
    ensures Apply(s, WorkerAnswer(reply)) == GotAnswer(s, reply)
  {
  }

  lemma AskSltIs(s: State)
    ensures Apply(s, WorkerAskSlt) == DoAskSlt(s)
  {
  }

  lemma SltIs(s: State, items: Option<seq<Reconcile.Item>>)
    ensures Apply(s, WorkerSlt(items)) == GotSlt(s, items)
  {
  }

  lemma JarIs(s: State, alive: bool)
    ensures Apply(s, WorkerJar(alive)) == JarAnswer(s, alive)
  {
  }

  lemma ReadClockIs(s: State)
    ensures Apply(s, WorkerReadClock) == ReadClock(s)
  {
  }

  lemma SweepClockIs(s: State)
    ensures Apply(s, WorkerSweepClock) == SweepClock(s)
  {
  }

  lemma SweepIs(s: State)
    ensures Apply(s, WorkerSweep) == Sweep(s)
  {
  }

  lemma PopIs(s: State, i: nat)
    ensures Apply(s, PopTicket(i)) == Pop(s, i)
  {
  }

  lemma MintIs(s: State, token: Token, record: Record, ttl: nat)
    ensures Apply(s, MintToken(token, record, ttl)) == Mint(s, token, record, ttl)
  {
  }

  lemma LoginIs(s: State, student: string)
    ensures Apply(s, Login(student)) ==
      s.(students := s.students + {student}, jobs := Supersede(s.jobs, student, s.now))
  {
  }

  lemma TakeIs(s: State, token: Token, student: string, session: string)
    ensures Apply(s, TakeToken(token, student, session)) == Take(s, token, student, session)
  {
  }

  lemma VerifyIs(s: State, h: nat, accepted: bool)
    ensures Apply(s, VerifyPassword(h, accepted)) == Verify(s, h, accepted)
  {
  }

  lemma CheckIs(s: State, h: nat)
    ensures Apply(s, CheckRecord(h)) == Check(s, h)
  {
  }

  lemma CloseIs(s: State)
    ensures Apply(s, WorkerClose) == CloseJob(s)
  {
  }

  lemma ClaimIs(s: State)
    ensures Apply(s, WorkerClaim) == TryClaim(s)
  {
  }

  lemma InsertAuditsIs(s: State, ok: bool)
    ensures Apply(s, WorkerInsertAudits(ok)) == DoInsertAudits(s, ok)
  {
  }

  lemma CheckStatusIs(s: State)
    ensures Apply(s, WorkerCheckStatus) == CheckStatus(s)
  {
  }

  lemma InsertIs(s: State, h: nat)
    ensures Apply(s, InsertJob(h)) == InsertRow(s, h)
  {
  }

  lemma PushIs(s: State, h: nat)
    ensures Apply(s, PushTicket(h)) == Push(s, h)
  {
  }

  lemma AbandonIs(s: State, h: nat)
    requires h < |s.handlers|
    ensures Apply(s, Abandon(h)) == s.(handlers := s.handlers[h := Handler.Gone])
  {
  }
}
