/** The life of a confirm token: from the preview that mints it to the submit
    that takes it, whatever everybody else does in between. */
module Confirmation {
  import opened Wrappers
  import opened Segments
  import opened Ledger
  import opened Protocol

  /** The action neither parks a record under `token` nor takes it. */
  predicate Leaves(a: Action, token: Token) {
    && (a.MintToken? ==> a.token != token)
    && (a.TakeToken? ==> a.token != token)
  }

  /** Nobody else touches what is parked. */
  lemma OthersLeave(s: State, a: Action)
    requires !a.MintToken? && !a.TakeToken?
    ensures Apply(s, a).confirms == s.confirms
  {
  }

  lemma StepLeaves(s: State, a: Action, token: Token)
    requires Leaves(a, token)
    ensures token in Apply(s, a).confirms <==> token in s.confirms
    ensures token in s.confirms ==> Apply(s, a).confirms[token] == s.confirms[token]
  {
    hide Apply;
    match a
    case MintToken(other, record, ttl) => MintIs(s, other, record, ttl);
    case TakeToken(other, student, session) => TakeIs(s, other, student, session);
    case _ => OthersLeave(s, a);
  }

  lemma {:induction false} RunLeaves(s: State, actions: seq<Action>, token: Token)
    requires forall a :: a in actions ==> Leaves(a, token)
    ensures token in Run(s, actions).confirms <==> token in s.confirms
    ensures token in s.confirms ==> Run(s, actions).confirms[token] == s.confirms[token]
  {
    hide Apply;
    if actions != [] {
      RunLeaves(s, actions[..|actions| - 1], token);
      StepLeaves(Run(s, actions[..|actions| - 1]), actions[|actions| - 1], token);
    }
  }

  /** A token minted for `ttl` opens a submit at its own student's hands exactly
      while that time lasts; whoever takes it, whenever, it is gone for good. */
  lemma TokenLivesItsTime(s: State, token: Token, record: Record, ttl: nat, actions: seq<Action>, student: string,
        session: string)
    requires forall a :: a in actions ==> Leaves(a, token)
    ensures var t := Run(Apply(s, MintToken(token, record, ttl)), actions);
      var after := Apply(t, TakeToken(token, student, session));
      && (if t.now < s.now + ttl && student == record.student then
            after.handlers == t.handlers + [Taken(token, record, student, session)]
          else after.handlers == t.handlers)
      && token !in after.confirms
      && after == t.(handlers := after.handlers, confirms := t.confirms - {token})
  {
    hide Apply, Run;
    MintIs(s, token, record, ttl);
    var t := Run(Apply(s, MintToken(token, record, ttl)), actions);
    RunLeaves(Apply(s, MintToken(token, record, ttl)), actions, token);
    TakeIs(t, token, student, session);
  }

  /** Once taken it opens nothing until it is minted again. */
  lemma TokenIsSingleUse(s: State, token: Token, student: string, session: string, actions: seq<Action>, other: string,
        session2: string)
    requires forall a :: a in actions ==> !(a.MintToken? && a.token == token)
    ensures var t := Run(Apply(s, TakeToken(token, student, session)), actions);
      Apply(t, TakeToken(token, other, session2)) == t
  {
    hide Apply, Run;
    TakeIs(s, token, student, session);
    NothingParked(Apply(s, TakeToken(token, student, session)), actions, token);
    TakeIs(Run(Apply(s, TakeToken(token, student, session)), actions), token, other, session2);
  }

  lemma NothingAppears(s: State, a: Action, token: Token)
    requires token !in s.confirms && !(a.MintToken? && a.token == token)
    ensures token !in Apply(s, a).confirms
  {
    hide Apply;
    match a
    case MintToken(other, record, ttl) => MintIs(s, other, record, ttl);
    case TakeToken(other, student, session) => TakeIs(s, other, student, session);
    case _ => OthersLeave(s, a);
  }

  lemma {:induction false} NothingParked(s: State, actions: seq<Action>, token: Token)
    requires token !in s.confirms && forall a :: a in actions ==> !(a.MintToken? && a.token == token)
    ensures token !in Run(s, actions).confirms
  {
    hide Apply;
    if actions != [] {
      NothingParked(s, actions[..|actions| - 1], token);
      NothingAppears(Run(s, actions[..|actions| - 1]), actions[|actions| - 1], token);
    }
  }

  // ---------- what a submit makes of its token ----------

  predicate ActiveUnder(jobs: seq<Job>, hash: Hash) {
    exists j :: 0 <= j < |jobs| && jobs[j].status in {Queued, Running} && jobs[j].payloadHash == hash
  }

  /** A submit nobody gets between, run to its end. */
  function Submitted(s: State, h: nat, accepted: bool): State {
    Apply(Apply(Apply(Apply(s, VerifyPassword(h, accepted)), CheckRecord(h)), InsertJob(h)), PushTicket(h))
  }

  /** With the password accepted, a record that parses, a known student and no
      active job under the hash, `after` has one more queued job and one more
      ticket with the record's own fields; in every other case nothing at all. */
  ghost predicate OneJobOrNone(s: State, h: nat, accepted: bool, after: State)
    requires h < |s.handlers| && s.handlers[h].Taken?
  {
    var x := s.handlers[h];
    var ended := s.(handlers := s.handlers[h := Handler.Gone]);
    match Parse(x.record.segments)
    case Err(_) => after == ended
    case Ok(ops) =>
      var hash := PayloadHash(x.student, ops);
      var ticket :=
        Ticket(|s.jobs|, x.session, x.student, x.record.segments, x.record.variant, x.record.formUrl);
      after ==
        if accepted && x.student in s.students && !ActiveUnder(s.jobs, hash) then
          ended.(jobs := s.jobs + [Job(x.student, Queued, ops, hash, s.now, None, None)],
                 origins := s.origins + [x.token], logs := s.logs + [[]], queue := s.queue + [ticket])
        else ended
  }

  lemma SubmitAlone(s: State, h: nat, accepted: bool)
    requires h < |s.handlers| && s.handlers[h].Taken?
    ensures OneJobOrNone(s, h, accepted, Submitted(s, h, accepted))
  {
    hide Apply, OneJobOrNone, Verify, Check, InsertRow, Push;
    VerifyIs(s, h, accepted);
    var verified := Verify(s, h, accepted);
    CheckIs(verified, h);
    InsertIs(Check(verified, h), h);
    PushIs(InsertRow(Check(verified, h), h), h);
    SubmitSteps(s, h, accepted);
  }

  lemma SubmitSteps(s: State, h: nat, accepted: bool)
    requires h < |s.handlers| && s.handlers[h].Taken?
    ensures OneJobOrNone(s, h, accepted, Push(InsertRow(Check(Verify(s, h, accepted), h), h), h))
  {
    hide Parse, PayloadHash, HasActive, ActiveUnder;
    var x := s.handlers[h];
    if Parse(x.record.segments).Ok? {
      ActiveIs(s.jobs, PayloadHash(x.student, Parse(x.record.segments).value));
    }
    var verified := Verify(s, h, accepted);
    if !accepted {
      assert verified.handlers[h].Gone?;
    } else {
      var checked := Check(verified, h);
      assert verified.handlers[h] == Verified(x.token, x.record, x.student, x.session);
      if checked.handlers[h].Checked? {
        var inserted := InsertRow(checked, h);
        assert inserted.handlers[h].Pushing?;
        assert Push(inserted, h).handlers == s.handlers[h := Handler.Gone];
      } else {
        assert checked.handlers == s.handlers[h := Handler.Gone];
      }
    }
  }

  lemma ActiveIs(jobs: seq<Job>, hash: Hash)
    ensures HasActive(jobs, hash) <==> ActiveUnder(jobs, hash)
  {
  }
}
