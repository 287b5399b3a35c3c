/** What reading slt_result by the long course code does to the ledger: when a
    recorded outcome is the one the list gives under the op's own number, and
    runs in which it is not. */
module Misreading {
  import opened Wrappers
  import opened Ops
  import opened Segments
  import opened Ledger
  import opened Protocol
  import opened ProtocolInvariant
  import opened ProtocolTheorems
  import opened PostWindow
  import Reconcile
  import Payload

  /** After a retried post, a duplicate-like refusal that slt_result settled is
      recorded as the list has it under the op's number exactly when the reading
      by the long code agrees; one last row for both is enough. */
  lemma RecordedAsListedExactly(s: State, j: nat, k: nat, items: seq<Reconcile.Item>)
    requires Reachable(s) && j < |s.jobs| && k < |s.jobs[j].ops|
    requires ClosedWithRows(LogOf(s, j)) && FindAnswer(LogOf(s, j)).Some? && FindSlt(LogOf(s, j)) == Some(items)
    requires Num(LogOf(s, j), POST) > 1
    requires var v := VerdictOf(FindAnswer(LogOf(s, j)).value, s.jobs[j].ops[k].code);
      v.kind.Refused? && v.duplicateLike
    ensures LogOf(s, j)[1].first + k < |s.audits|
    ensures var op := s.jobs[j].ops[k];
      && (s.audits[LogOf(s, j)[1].first + k].outcome == Reconcile.ListedOutcome(op, items) <==>
            (Reconcile.Held(items, op.code) <==> Reconcile.HeldAs(items, op.code)))
      && (Reconcile.OneLastRow(items, op.code) ==>
            s.audits[LogOf(s, j)[1].first + k].outcome == Reconcile.ListedOutcome(op, items))
  {
    hide Reachable, Reconcile.OneLastRow, Reconcile.Held, Reconcile.HeldAs, RowsOf;
    DuplicatesAreNotFailures(s, j, k);
    var op := s.jobs[j].ops[k];
    if Reconcile.OneLastRow(items, op.code) {
      Reconcile.OneRowReadsRight(items, op.code);
    }
  }

  // ---------- a run through the retry and the reading ----------

  /** The first post is lost, the second is answered `v`. */
  function Retrying(v: Verdicts): seq<Action> {
    [WorkerPost, WorkerAnswer(None), WorkerPost, WorkerAnswer(Some(Classified(v)))]
  }

  /** The list is read and the job closed. */
  function Settling(items: seq<Reconcile.Item>): seq<Action> {
    [WorkerJar(true), WorkerAskSlt, WorkerSlt(Some(items)), WorkerClose]
  }

  lemma RetryingRun(s: State, v: Verdicts)
    requires s.worker.Working? && s.worker.step.SendPost? && s.worker.step.tried == 0
    requires s.worker.t.job == 0 && |s.jobs| == |s.logs| == 1
    requires Reconcile.AnyUnknown(FirstUpdates(s.worker.step.first, s.worker.ops, v, true))
    ensures var after := Run(s, Retrying(v)); var post := Post(s.worker.step.payload, s.worker.step.rows);
      && after.worker == s.worker.(step := ReloadJar(s.worker.step.first,
           FirstUpdates(s.worker.step.first, s.worker.ops, v, true)))
      && after.logs == [s.logs[0] + [post] + [post] + [Answer(v)]] && after.jobs == s.jobs
  {
    hide Apply, Run, After, FirstUpdates, Reconcile.AnyUnknown;
    var actions := Retrying(v);
    AfterAll(s, actions);
    NextIs(s, actions, 0);
    PostIs(After(s, actions, 0));
    NextIs(s, actions, 1);
    AnswerIs(After(s, actions, 1), None);
    NextIs(s, actions, 2);
    PostIs(After(s, actions, 2));
    NextIs(s, actions, 3);
    AnswerIs(After(s, actions, 3), Some(Classified(v)));
  }

  lemma SettlingRun(s: State, items: seq<Reconcile.Item>)
    requires s.worker.Working? && s.worker.step.ReloadJar? && |s.worker.step.updates| == |s.worker.ops|
    requires s.worker.t.job == 0 && |s.jobs| == |s.logs| == 1
    ensures var after := Run(s, Settling(items));
      && after.logs == [s.logs[0] + [SltAsked] + [SltRead(items)] + [Closed]]
      && |after.jobs| == 1 && after.jobs[0].ops == s.jobs[0].ops
  {
    hide Apply, Run, After, Reconcile.Reconciled, ApplyOutcomes;
    var actions := Settling(items);
    AfterAll(s, actions);
    NextIs(s, actions, 0);
    JarIs(After(s, actions, 0), true);
    NextIs(s, actions, 1);
    AskSltIs(After(s, actions, 1));
    NextIs(s, actions, 2);
    SltIs(After(s, actions, 2), Some(items));
    NextIs(s, actions, 3);
    CloseIs(After(s, actions, 3));
  }

  lemma RetriedHistory(log: seq<Event>, post: Event, v: Verdicts, items: seq<Reconcile.Item>)
    requires Inserted(log) && post.Post? && Num(log, POST) == 0
    ensures var full := log + [post] + [post] + [Answer(v)] + [SltAsked] + [SltRead(items)] + [Closed];
      ClosedWithRows(full) && FindAnswer(full) == Some(v) && FindSlt(full) == Some(items) && Num(full, POST) == 2
  {
    var once := log + [post];
    var twice := once + [post];
    var told := twice + [Answer(v)];
    var asked := told + [SltAsked];
    var read := asked + [SltRead(items)];
    NumSnoc(log, post);
    NumSnoc(once, post);
    NumSnoc(twice, Answer(v));
    NumSnoc(told, SltAsked);
    NumSnoc(asked, SltRead(items));
    NumSnoc(read, Closed);
    FindSnoc(twice, Answer(v));
    FindSnoc(told, SltAsked);
    FindSnoc(asked, SltRead(items));
    FindSnoc(read, Closed);
    assert (read + [Closed])[1] == log[1];
  }

  /** The whole run, from the empty site to the close. */
  function Retried(token: Token, record: Record, ttl: nat, session: string, page: Page, v: Verdicts,
        items: seq<Reconcile.Item>): seq<Action>
  {
    Submission(token, record, ttl, session) + Execution(page) + Retrying(v) + Settling(items)
  }

  predicate Disputed(ops: seq<Op>, v: Verdicts, k: int) {
    0 <= k < |ops| && VerdictOf(v, ops[k].code).kind.Refused? && VerdictOf(v, ops[k].code).duplicateLike
  }

  lemma DisputedIsUnknown(ops: seq<Op>, v: Verdicts, k: int, first: nat)
    requires Disputed(ops, v, k)
    ensures Reconcile.AnyUnknown(FirstUpdates(first, ops, v, true))
  {
    assert FirstUpdates(first, ops, v, true)[k].outcome.UnknownReconciled?;
  }

  /** The end of the run: one job, closed, posted twice, answered and read. */
  ghost predicate EndsRead(s: State, ops: seq<Op>, v: Verdicts, items: seq<Reconcile.Item>) {
    && Reachable(s) && |s.jobs| == 1 && s.jobs[0].ops == ops && ClosedWithRows(LogOf(s, 0))
    && FindAnswer(LogOf(s, 0)) == Some(v) && FindSlt(LogOf(s, 0)) == Some(items) && Num(LogOf(s, 0), POST) == 2
  }

  /** Every batch that parses, with every page it fits on, every answer that
      disputes an op and every list, is one such run. */
  lemma RetriedRun(now: int, dwell: nat, token: Token, record: Record, ttl: nat, session: string, page: Page,
        v: Verdicts, items: seq<Reconcile.Item>, k: nat)
    requires ttl > 0 && Parse(record.segments).Ok? && !page.bounce
    requires PayloadFor(Parse(record.segments).value, record.variant, page).Some?
    requires Disputed(Parse(record.segments).value, v, k)
    ensures EndsRead(Run(Initial(now, dwell), Retried(token, record, ttl, session, page, v, items)),
                     Parse(record.segments).value, v, items)
  {
    hide Apply, Run, Parse, PayloadFor, Inv, FirstUpdates, Submission, Execution, Retrying, Settling, Disputed;
    var start, submission := Initial(now, dwell), Submission(token, record, ttl, session);
    var s := Run(start, submission + Execution(page));
    SubmissionRun(now, dwell, token, record, ttl, session);
    var submitted := Run(start, submission);
    ExecutionRun(submitted, submitted.queue[0], submitted.jobs[0], page);
    RunConcat(start, submission, Execution(page));
    ReachableOk(s);
    WorkingFacts(s);
    DisputedIsUnknown(s.worker.ops, v, k, s.worker.step.first);
    RetryingRun(s, v);
    RunConcat(start, submission + Execution(page), Retrying(v));
    var t := Run(s, Retrying(v));
    FirstUpdatesSize(s.worker.step.first, s.worker.ops, v);
    SettlingRun(t, items);
    RunConcat(start, submission + Execution(page) + Retrying(v), Settling(items));
    RetriedHistory(s.logs[0], Post(s.worker.step.payload, s.worker.step.rows), v, items);
  }

  lemma FirstUpdatesSize(first: nat, ops: seq<Op>, v: Verdicts)
    ensures |FirstUpdates(first, ops, v, true)| == |ops|
  {
  }

  /** Every op and every list it is misread from end up as a closed job with the
      wrong outcome in its audit row. */
  lemma EveryMisreadingIsRecorded(op: Op, items: seq<Reconcile.Item>)
    requires GoodCode(op.code) && Reconcile.Held(items, op.code) != Reconcile.HeldAs(items, op.code)
    ensures exists s: State, v: Verdicts ::
      EndsRead(s, [op], v, items) && LogOf(s, 0)[1].first < |s.audits|
      && s.audits[LogOf(s, 0)[1].first].outcome in {Success, Rejected}
      && s.audits[LogOf(s, 0)[1].first].outcome != Reconcile.ListedOutcome(op, items)
  {
    hide Apply, Run, Parse, Print, Reconcile.Held, Reconcile.HeldAs, Reachable, Retried;
    var ops := [op];
    ParsePrint(ops);
    var record := Record("B1", Print(ops), VARIANT_SSFORM, "u");
    var page := Page(false, Some("go"), map[], None, None);
    var v := map[op.code := Verdict(Refused, None, true)];
    RetriedRun(0, 600, "t", record, 1, "s", page, v, items, 0);
    var s := Run(Initial(0, 600), Retried("t", record, 1, "s", page, v, items));
    assert EndsRead(s, ops, v, items);
    DuplicatesAreNotFailures(s, 0, 0);
    RecordedAsListedExactly(s, 0, 0, items);
  }

  /** In particular the school's own row: an add it lists as selected is recorded
      as rejected, a drop it still lists as a success. */
  lemma LiveRowIsMisrecorded(op: Op)
    requires op in {Add("CSE515", 1), Drop("CSE515")}
    ensures exists s: State, v: Verdicts ::
      EndsRead(s, [op], v, [Reconcile.LIVE_ROW]) && LogOf(s, 0)[1].first < |s.audits|
      && s.audits[LogOf(s, 0)[1].first].outcome == if op.Add? then Rejected else Success
  {
    Reconcile.LiveRowIsNotRead();
    EveryMisreadingIsRecorded(op, [Reconcile.LIVE_ROW]);
    var s: State, v: Verdicts :| EndsRead(s, [op], v, [Reconcile.LIVE_ROW]) && LogOf(s, 0)[1].first < |s.audits|
      && s.audits[LogOf(s, 0)[1].first].outcome in {Success, Rejected}
      && s.audits[LogOf(s, 0)[1].first].outcome != Reconcile.ListedOutcome(op, [Reconcile.LIVE_ROW]);
  }
}
