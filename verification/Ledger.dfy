/** `write/jobs.py` and the job half of `auth/students.py`: the write_jobs and
    write_audit tables. A row's id is its position; neither table loses rows
    here. Every function below is one guarded UPDATE or INSERT. */
module Ledger {
  import opened Wrappers
  import opened Ops
  import opened Segments

  datatype Status = Queued | Running | Done | Failed | Cancelled | SessionSuperseded

  predicate Active(status: Status) {
    status.Queued? || status.Running?
  }

  datatype Job = Job(
    student: string,
    status: Status,
    ops: seq<Op>,
    payloadHash: Hash,
    createdAt: int,
    startedAt: Option<int>,
    finishedAt: Option<int>)

  datatype Outcome =
    | Pending
    | Success
    | Rejected          // "failed": a business rejection by the school
    | TransportFailed
    | ParseFailed
    | StageExpired
    | UnknownReconciled
    | Superseded

  datatype Audit = Audit(job: nat, course: string, action: string, outcome: Outcome, schoolMsg: Option<string>,
      payloadHash: Hash)

  datatype Update = Update(audit: nat, outcome: Outcome, schoolMsg: Option<string>)

  // ---------- write_jobs ----------

  predicate HasActive(jobs: seq<Job>, hash: Hash) {
    exists j :: 0 <= j < |jobs| && Active(jobs[j].status) && jobs[j].payloadHash == hash
  }

  function NewJob(student: string, ops: seq<Op>, hash: Hash, now: int): Job {
    Job(student, Queued, ops, hash, now, None, None)
  }

  predicate Claimable(job: Job, notOlderThan: int) {
    job.status.Queued? && job.createdAt >= notOlderThan
  }

  function Claim(jobs: seq<Job>, id: nat, notOlderThan: int, now: int): seq<Job> {
    if id < |jobs| && Claimable(jobs[id], notOlderThan) then
      jobs[id := jobs[id].(status := Running, startedAt := Some(now))]
    else jobs
  }

  function Ended(job: Job, status: Status, now: int): Job {
    if Active(job.status) then job.(status := status, finishedAt := Some(now)) else job
  }

  function Finish(jobs: seq<Job>, id: nat, status: Status, now: int): seq<Job> {
    if id < |jobs| then jobs[id := Ended(jobs[id], status, now)] else jobs
  }

  function CancelStale(jobs: seq<Job>, olderThan: int, now: int): seq<Job> {
    seq(|jobs|, i requires 0 <= i < |jobs| =>
      if jobs[i].createdAt < olderThan then Ended(jobs[i], Cancelled, now) else jobs[i])
  }

  function Supersede(jobs: seq<Job>, student: string, now: int): seq<Job> {
    seq(|jobs|, i requires 0 <= i < |jobs| =>
      if jobs[i].student == student then Ended(jobs[i], SessionSuperseded, now) else jobs[i])
  }

  function StaleActive(olderThan: int): Job -> bool {
    (job: Job) => Active(job.status) && job.createdAt < olderThan
  }

  function ActiveOf(student: string): Job -> bool {
    (job: Job) => Active(job.status) && job.student == student
  }

  function Count(jobs: seq<Job>, p: Job -> bool): nat {
    if jobs == [] then 0
    else Count(jobs[..|jobs| - 1], p) + (if p(jobs[|jobs| - 1]) then 1 else 0)
  }

  // ---------- write_audit ----------

  function PendingRow(job: nat, op: Op, hash: Hash): Audit {
    Audit(job, op.code, ActionText(op), Pending, None, hash)
  }

  function PendingRows(job: nat, ops: seq<Op>, hash: Hash): seq<Audit> {
    seq(|ops|, i requires 0 <= i < |ops| => PendingRow(job, ops[i], hash))
  }

  function ApplyOne(audits: seq<Audit>, u: Update): seq<Audit> {
    if u.audit < |audits| then audits[u.audit := audits[u.audit].(outcome := u.outcome, schoolMsg := u.schoolMsg)]
    else audits
  }

  function ApplyOutcomes(audits: seq<Audit>, updates: seq<Update>): seq<Audit> {
    if updates == [] then audits
    else ApplyOne(ApplyOutcomes(audits, updates[..|updates| - 1]), updates[|updates| - 1])
  }

  // ---------- what no statement ever does ----------

  /** Statuses move Queued -> Running -> terminal, a terminal row is frozen
      whole, identity columns never change, rows are only appended. */
  ghost predicate Evolves(before: seq<Job>, after: seq<Job>) {
    |before| <= |after| && forall j :: 0 <= j < |before| ==> RowEvolves(before[j], after[j])
  }

  ghost predicate RowEvolves(b: Job, a: Job) {
    && b.student == a.student && b.ops == a.ops && b.payloadHash == a.payloadHash && b.createdAt == a.createdAt
    && (!Active(b.status) ==> a == b)
    && (b.status.Running? ==> !a.status.Queued?)
    && (b.status.Running? ==> a.startedAt == b.startedAt)
  }

  lemma EvolvesTransitive(a: seq<Job>, b: seq<Job>, c: seq<Job>)
    requires Evolves(a, b) && Evolves(b, c)
    ensures Evolves(a, c)
  {
    forall j | 0 <= j < |a| ensures RowEvolves(a[j], c[j]) {
      assert RowEvolves(a[j], b[j]) && RowEvolves(b[j], c[j]);
    }
  }

  /** An UPDATE keyed by row writes that row and no other; with distinct ids
      each update lands unaltered. */
  lemma {:induction false} ApplyOutcomesRows(audits: seq<Audit>, updates: seq<Update>, first: nat)
    requires first + |updates| <= |audits|
    requires forall k :: 0 <= k < |updates| ==> updates[k].audit == first + k
    ensures |ApplyOutcomes(audits, updates)| == |audits|
    ensures forall k :: 0 <= k < |updates| ==>
      ApplyOutcomes(audits, updates)[first + k] ==
      audits[first + k].(outcome := updates[k].outcome, schoolMsg := updates[k].schoolMsg)
    ensures forall i ::
      0 <= i < |audits| && !(first <= i < first + |updates|) ==> ApplyOutcomes(audits, updates)[i] == audits[i]
  {
    if updates != [] {
      ApplyOutcomesRows(audits, updates[..|updates| - 1], first);
    }
  }

  /** The two tables, changed in place. */
  class JobLedger {
    var jobs: seq<Job>
    var audits: seq<Audit>

    constructor ()
      ensures jobs == [] && audits == []
    {
      jobs, audits := [], [];
    }

    /** The partial unique index: the insert fails exactly when an active job
        carries the hash. */
    method CreateQueuedJob(student: string, ops: seq<Op>, hash: Hash, now: int) returns (id: Option<nat>)
      modifies this`jobs
      ensures id.None? <==> old(HasActive(jobs, hash))
      ensures id.None? ==> jobs == old(jobs)
      ensures id.Some? ==> id.value == |old(jobs)| && jobs == old(jobs) + [NewJob(student, ops, hash, now)]
      ensures Evolves(old(jobs), jobs)
    {
      var existing := FindActiveJobByHash(hash);
      if existing.Some? {
        return None;
      }
      id := Some(|jobs|);
      jobs := jobs + [NewJob(student, ops, hash, now)];
    }

    method FindActiveJobByHash(hash: Hash) returns (id: Option<nat>)
      ensures id.Some? ==> id.value < |jobs| && Active(jobs[id.value].status) && jobs[id.value].payloadHash == hash
      ensures id.Some? <==> HasActive(jobs, hash)
    {
      for i := 0 to |jobs|
        invariant forall j :: 0 <= j < i ==> !(Active(jobs[j].status) && jobs[j].payloadHash == hash)
      {
        if Active(jobs[i].status) && jobs[i].payloadHash == hash {
          return Some(i);
        }
      }
      return None;
    }

    method ClaimJob(id: nat, notOlderThan: int, now: int) returns (claimed: bool)
      modifies this`jobs
      ensures jobs == Claim(old(jobs), id, notOlderThan, now)
      ensures claimed <==> id < |old(jobs)| && old(jobs)[id].status.Queued? && old(jobs)[id].createdAt >= notOlderThan
      ensures claimed ==> jobs[id].status.Running?
      ensures Evolves(old(jobs), jobs)
    {
      claimed := id < |jobs| && Claimable(jobs[id], notOlderThan);
      if claimed {
        jobs := jobs[id := jobs[id].(status := Running, startedAt := Some(now))];
      }
    }

    method FinishJob(id: nat, status: Status, now: int) returns (written: bool)
      requires !Active(status)
      modifies this`jobs
      ensures jobs == Finish(old(jobs), id, status, now)
      ensures written <==> id < |old(jobs)| && Active(old(jobs)[id].status)
      ensures id < |jobs| ==> !Active(jobs[id].status)
      ensures Evolves(old(jobs), jobs)
    {
      written := id < |jobs| && Active(jobs[id].status);
      if written {
        jobs := jobs[id := jobs[id].(status := status, finishedAt := Some(now))];
      }
    }

    /** After a sweep no active job is older than the cutoff; the count is the
        number of rows it ended. */
    method CancelStaleActiveJobs(olderThan: int, now: int) returns (cancelled: nat)
      modifies this`jobs
      ensures jobs == CancelStale(old(jobs), olderThan, now)
      ensures forall j :: 0 <= j < |jobs| && Active(jobs[j].status) ==> jobs[j].createdAt >= olderThan
      ensures cancelled == Count(old(jobs), StaleActive(olderThan))
      ensures Evolves(old(jobs), jobs)
    {
      cancelled := 0;
      ghost var before := jobs;
      for i := 0 to |jobs|
        invariant |jobs| == |before|
        invariant forall j :: 0 <= j < i ==> jobs[j] == CancelStale(before, olderThan, now)[j]
        invariant forall j :: i <= j < |jobs| ==> jobs[j] == before[j]
        invariant cancelled == Count(before[..i], StaleActive(olderThan))
      {
        assert before[..i + 1][..i] == before[..i];
        if jobs[i].createdAt < olderThan && Active(jobs[i].status) {
          jobs := jobs[i := jobs[i].(status := Cancelled, finishedAt := Some(now))];
          cancelled := cancelled + 1;
        }
      }
      assert before[..|jobs|] == before;
    }

    /** A new login ends every active job of the student, and no other job. */
    method RecordSuccessfulLogin(student: string, now: int) returns (superseded: nat)
      modifies this`jobs
      ensures jobs == Supersede(old(jobs), student, now)
      ensures forall j :: 0 <= j < |jobs| && jobs[j].student == student ==> !Active(jobs[j].status)
      ensures superseded == Count(old(jobs), ActiveOf(student))
      ensures Evolves(old(jobs), jobs)
    {
      superseded := 0;
      ghost var before := jobs;
      for i := 0 to |jobs|
        invariant |jobs| == |before|
        invariant forall j :: 0 <= j < i ==> jobs[j] == Supersede(before, student, now)[j]
        invariant forall j :: i <= j < |jobs| ==> jobs[j] == before[j]
        invariant superseded == Count(before[..i], ActiveOf(student))
      {
        assert before[..i + 1][..i] == before[..i];
        if jobs[i].student == student && Active(jobs[i].status) {
          jobs := jobs[i := jobs[i].(status := SessionSuperseded, finishedAt := Some(now))];
          superseded := superseded + 1;
        }
      }
      assert before[..|jobs|] == before;
    }

    /** One pending row per op, in op order, all of them or none. */
    method InsertPendingAudits(job: nat, ops: seq<Op>, hash: Hash) returns (ids: seq<nat>)
      modifies this`audits
      ensures audits == old(audits) + PendingRows(job, ops, hash)
      ensures |ids| == |ops| && forall k :: 0 <= k < |ids| ==> ids[k] == |old(audits)| + k
    {
      ids := [];
      for i := 0 to |ops|
        invariant audits == old(audits) + PendingRows(job, ops, hash)[..i]
        invariant |ids| == i && forall k :: 0 <= k < i ==> ids[k] == |old(audits)| + k
      {
        ids := ids + [|audits|];
        audits := audits + [PendingRow(job, ops[i], hash)];
      }
      assert PendingRows(job, ops, hash)[..|ops|] == PendingRows(job, ops, hash);
    }

    method ApplyAuditOutcomes(updates: seq<Update>)
      modifies this`audits
      ensures audits == ApplyOutcomes(old(audits), updates)
    {
      for i := 0 to |updates|
        invariant audits == ApplyOutcomes(old(audits), updates[..i])
      {
        assert updates[..i + 1][..i] == updates[..i];
        audits := ApplyOne(audits, updates[i]);
      }
      assert updates[..|updates|] == updates;
    }
  }
}
