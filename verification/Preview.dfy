/** `write/preview.py` and the shape checks of `api/write.py`: greedy verdicts
    over a whole batch. */
module Preview {
  import opened Wrappers
  import opened Timetable

  datatype Course = Course(code: Option<string>, classTime: seq<string>, remaining: Option<int>)

  /** `add` is the `+` action, otherwise `-`. */
  datatype ResolvedOp = ResolvedOp(add: bool, ident: string, priority: Option<int>, course: Course)

  datatype Target = Target(name: string, days: seq<string>)

  datatype Verdict = Good | NoCode | Mixed | NotSelected | Conflict

  datatype OpVerdict = OpVerdict(
    index: nat, add: bool, ident: string, code: Option<string>, writable: bool, verdict: Verdict,
    detail: Option<string>, remainingZero: bool)

  // ---------- what each op must get ----------

  ghost predicate IsMixed(ops: seq<ResolvedOp>, code: string) {
    (exists i :: 0 <= i < |ops| && ops[i].add && ops[i].course.code == Some(code)) &&
    (exists i :: 0 <= i < |ops| && !ops[i].add && ops[i].course.code == Some(code))
  }

  predicate ClashesTarget(op: ResolvedOp, targets: seq<Target>, k: int) {
    0 <= k < |targets| && Clash(op.course.classTime, targets[k].days)
  }

  /** Op `j` is an earlier add of the batch that passed, and `i` clashes with it. */
  predicate ClashesStaged(ops: seq<ResolvedOp>, vs: seq<OpVerdict>, i: nat, j: int)
    requires i < |ops| && |vs| >= i
  {
    0 <= j < i && ops[j].add && vs[j].writable && Clash(ops[i].course.classTime, ops[j].course.classTime)
  }

  /** `said` names to the first clash: targets in order, then earlier adds. */
  ghost predicate FirstClash(ops: seq<ResolvedOp>, targets: seq<Target>, vs: seq<OpVerdict>, i: nat,
        said: Option<string>)
    requires i < |ops| && |vs| >= i
  {
    || (exists k :: ClashesTarget(ops[i], targets, k) && said == Some(targets[k].name)
          && forall m :: 0 <= m < k ==> !ClashesTarget(ops[i], targets, m))
    || ((forall m :: !ClashesTarget(ops[i], targets, m)) && FirstStagedClash(ops, vs, i, said))
  }

  ghost predicate FirstStagedClash(ops: seq<ResolvedOp>, vs: seq<OpVerdict>, i: nat, said: Option<string>)
    requires i < |ops| && |vs| >= i
  {
    exists j :: ClashesStaged(ops, vs, i, j) && said == ops[j].course.code
      && forall m :: 0 <= m < j ==> !ClashesStaged(ops, vs, i, m)
  }

  ghost predicate HasClash(ops: seq<ResolvedOp>, targets: seq<Target>, vs: seq<OpVerdict>, i: nat)
    requires i < |ops| && |vs| >= i
  {
    (exists k :: ClashesTarget(ops[i], targets, k)) || exists j :: ClashesStaged(ops, vs, i, j)
  }

  /** Precedence: no code, mixed, not selected, conflict; first failure wins. */
  ghost predicate JudgedAt(ops: seq<ResolvedOp>, selected: set<string>, targets: seq<Target>, vs: seq<OpVerdict>,
        i: nat)
    requires i < |ops| && i < |vs|
  {
    var op, v := ops[i], vs[i];
    && v.index == i && v.add == op.add && v.ident == op.ident && v.code == op.course.code
    && (v.writable <==> v.verdict.Good?)
    && (v.verdict.NoCode? <==> op.course.code.None?)
    && (v.verdict.Mixed? <==> op.course.code.Some? && IsMixed(ops, op.course.code.value))
    && (v.verdict.NotSelected? <==>
          op.course.code.Some? && !IsMixed(ops, op.course.code.value) && !op.add && op.course.code.value !in selected)
    && (v.verdict.Conflict? <==>
          op.course.code.Some? && !IsMixed(ops, op.course.code.value) && op.add && HasClash(ops, targets, vs, i))
    && (v.verdict.Conflict? ==> FirstClash(ops, targets, vs, i, v.detail))
    && (!v.verdict.Conflict? ==> v.detail.None?)
    && (v.remainingZero <==> op.add && (v.verdict.Good? || v.verdict.Conflict?) && op.course.remaining == Some(0))
  }

  ghost predicate Judged(ops: seq<ResolvedOp>, selected: set<string>, targets: seq<Target>, vs: seq<OpVerdict>) {
    |vs| == |ops| && forall i :: 0 <= i < |ops| ==> JudgedAt(ops, selected, targets, vs, i)
  }

  // ---------- the evaluation ----------

  method MixedCodes(ops: seq<ResolvedOp>) returns (mixed: set<string>)
    ensures forall code :: code in mixed <==> IsMixed(ops, code)
  {
    var added: set<string>, dropped: set<string> := {}, {};
    for i := 0 to |ops|
      invariant forall code :: code in added <==> exists j ::
        0 <= j < i && ops[j].add && ops[j].course.code == Some(code)
      invariant forall code :: code in dropped <==> exists j ::
        0 <= j < i && !ops[j].add && ops[j].course.code == Some(code)
    {
      if ops[i].course.code.Some? {
        if ops[i].add {
          added := added + {ops[i].course.code.value};
        } else {
          dropped := dropped + {ops[i].course.code.value};
        }
      }
    }
    mixed := added * dropped;
  }

  ghost predicate AllTimesValid(ops: seq<ResolvedOp>, targets: seq<Target>) {
    (forall i :: 0 <= i < |ops| ==> ValidTime(ops[i].course.classTime)) &&
    (forall k :: 0 <= k < |targets| ==> ValidTime(targets[k].days))
  }

  method ClashWithTargets(op: ResolvedOp, targets: seq<Target>) returns (hit: Result<Option<string>, char>)
    ensures hit.Ok? && hit.value.Some? ==>
      exists k :: ClashesTarget(op, targets, k) && hit.value == Some(targets[k].name)
        && forall m :: 0 <= m < k ==> !ClashesTarget(op, targets, m)
    ensures hit.Ok? && hit.value.None? ==> forall k :: !ClashesTarget(op, targets, k)
    ensures ValidTime(op.course.classTime) && (forall k :: 0 <= k < |targets| ==> ValidTime(targets[k].days)) ==>
      hit.Ok?
  {
    for k := 0 to |targets|
      invariant forall m :: 0 <= m < k ==> !ClashesTarget(op, targets, m)
    {
      var answer := IsConflictDays(op.course.classTime, targets[k].days);
      if answer.Err? {
        return Err(answer.error);
      }
      if answer.value {
        assert ClashesTarget(op, targets, k);
        return Ok(Some(targets[k].name));
      }
    }
    return Ok(None);
  }

  /** `staged` lists the passed adds so far, in request order. */
  ghost predicate IsStaged(ops: seq<ResolvedOp>, vs: seq<OpVerdict>, staged: seq<nat>) {
    && |vs| <= |ops|
    && (forall a :: 0 <= a < |staged| ==> staged[a] < |vs| && ops[staged[a]].add && vs[staged[a]].writable)
    && (forall a, b :: 0 <= a < b < |staged| ==> staged[a] < staged[b])
    && (forall j :: 0 <= j < |vs| && ops[j].add && vs[j].writable ==> j in staged)
  }

  method ClashWithStaged(ops: seq<ResolvedOp>, vs: seq<OpVerdict>, staged: seq<nat>)
    returns (hit: Result<Option<nat>, char>)
    requires |vs| < |ops| && IsStaged(ops, vs, staged)
    ensures hit.Ok? && hit.value.Some? ==>
      ClashesStaged(ops, vs, |vs|, hit.value.value) && forall m ::
        0 <= m < hit.value.value ==> !ClashesStaged(ops, vs, |vs|, m)
    ensures hit.Ok? && hit.value.None? ==> forall j :: !ClashesStaged(ops, vs, |vs|, j)
    ensures (forall i :: 0 <= i < |ops| ==> ValidTime(ops[i].course.classTime)) ==> hit.Ok?
  {
    var i := |vs|;
    for a := 0 to |staged|
      invariant forall b :: 0 <= b < a ==> !ClashesStaged(ops, vs, i, staged[b])
    {
      var answer := IsConflictDays(ops[i].course.classTime, ops[staged[a]].course.classTime);
      if answer.Err? {
        return Err(answer.error);
      }
      if answer.value {
        forall m | 0 <= m < staged[a] ensures !ClashesStaged(ops, vs, i, m) {
          if ops[m].add && vs[m].writable {
            var b :| 0 <= b < |staged| && staged[b] == m;
          }
        }
        return Ok(Some(staged[a]));
      }
    }
    forall j ensures !ClashesStaged(ops, vs, i, j) {
      if 0 <= j < i && ops[j].add && vs[j].writable {
        var b :| 0 <= b < |staged| && staged[b] == j;
      }
    }
    return Ok(None);
  }

  /** The loop body: one op against the batch judged so far. */
  method JudgeOne(ops: seq<ResolvedOp>, mixed: set<string>, selected: set<string>, targets: seq<Target>,
        vs: seq<OpVerdict>, staged: seq<nat>)
    returns (judged: Result<OpVerdict, char>)
    requires |vs| < |ops| && IsStaged(ops, vs, staged)
    requires forall code :: code in mixed <==> IsMixed(ops, code)
    ensures judged.Ok? ==> JudgedAt(ops, selected, targets, vs + [judged.value], |vs|)
    ensures AllTimesValid(ops, targets) ==> judged.Ok?
  {
    var i := |vs|;
    var op := ops[i];
    if op.course.code.None? {
      return Ok(OpVerdict(i, op.add, op.ident, None, false, NoCode, None, false));
    }
    var code := op.course.code.value;
    var verdict, clashWith, warn := Good, None, false;
    if code in mixed {
      verdict := Mixed;
    } else if !op.add && code !in selected {
      verdict := NotSelected;
    } else if op.add {
      warn := op.course.remaining == Some(0);
      var hit := ClashWithTargets(op, targets);
      if hit.Err? {
        return Err(hit.error);
      }
      if hit.value.Some? {
        verdict, clashWith := Conflict, hit.value;
      } else {
        var earlier := ClashWithStaged(ops, vs, staged);
        if earlier.Err? {
          return Err(earlier.error);
        }
        if earlier.value.Some? {
          verdict, clashWith := Conflict, ops[earlier.value.value].course.code;
        }
      }
    }
    var v := OpVerdict(i, op.add, op.ident, Some(code), verdict == Good, verdict, clashWith, warn);
    ClashesSame(ops, vs, vs + [v], i);
    return Ok(v);
  }

  /** Every answer is the judgement; on valid timetables there is an answer. */
  method EvaluateOps(ops: seq<ResolvedOp>, selected: set<string>, targets: seq<Target>)
    returns (result: Result<seq<OpVerdict>, char>)
    ensures result.Ok? ==> Judged(ops, selected, targets, result.value)
    ensures AllTimesValid(ops, targets) ==> result.Ok?
  {
    hide JudgedAt, IsStaged, IsMixed, ValidTime;
    var mixed := MixedCodes(ops);
    NothingStaged(ops);
    var staged: seq<nat> := [];
    var vs: seq<OpVerdict> := [];
    for i := 0 to |ops|
      invariant |vs| == i
      invariant IsStaged(ops, vs, staged)
      invariant forall j :: 0 <= j < i ==> JudgedAt(ops, selected, targets, vs, j)
    {
      var judged := JudgeOne(ops, mixed, selected, targets, vs, staged);
      if judged.Err? {
        return Err(judged.error);
      }
      JudgedSnoc(ops, selected, targets, vs, vs + [judged.value]);
      StagedSnoc(ops, vs, staged, judged.value);
      if judged.value.writable && ops[i].add {
        staged := staged + [i];
      }
      vs := vs + [judged.value];
    }
    return Ok(vs);
  }

  lemma NothingStaged(ops: seq<ResolvedOp>)
    ensures IsStaged(ops, [], [])
  {
  }

  lemma StagedSnoc(ops: seq<ResolvedOp>, vs: seq<OpVerdict>, staged: seq<nat>, v: OpVerdict)
    requires |vs| < |ops| && IsStaged(ops, vs, staged)
    ensures IsStaged(ops, vs + [v], if v.writable && ops[|vs|].add then staged + [|vs|] else staged)
  {
    var all := vs + [v];
    assert forall j :: 0 <= j < |vs| ==> all[j] == vs[j];
    if v.writable && ops[|vs|].add {
      StagedOne(ops, vs, staged, all);
    }
  }

  lemma StagedOne(ops: seq<ResolvedOp>, vs: seq<OpVerdict>, staged: seq<nat>, all: seq<OpVerdict>)
    requires |vs| < |ops| && IsStaged(ops, vs, staged) && |all| == |vs| + 1
    requires (forall j :: 0 <= j < |vs| ==> all[j] == vs[j]) && all[|vs|].writable && ops[|vs|].add
    ensures IsStaged(ops, all, staged + [|vs|])
  {
    var longer := staged + [|vs|];
    forall a | 0 <= a < |longer| ensures longer[a] < |all| && ops[longer[a]].add && all[longer[a]].writable {
      assert a < |staged| ==> longer[a] == staged[a];
    }
    forall j | 0 <= j < |all| && ops[j].add && all[j].writable ensures j in longer {
      if j < |vs| {
        assert j in staged;
      } else {
        assert longer[|staged|] == j;
      }
    }
    forall a, b | 0 <= a < b < |longer| ensures longer[a] < longer[b] {
      assert longer[a] == staged[a] && (b < |staged| ==> longer[b] == staged[b]);
    }
  }

  lemma ClashesSame(ops: seq<ResolvedOp>, before: seq<OpVerdict>, after: seq<OpVerdict>, i: nat)
    requires i < |ops| && |before| >= i && |after| >= i && before[..i] == after[..i]
    ensures forall j :: ClashesStaged(ops, before, i, j) <==> ClashesStaged(ops, after, i, j)
  {
    forall j ensures ClashesStaged(ops, before, i, j) <==> ClashesStaged(ops, after, i, j) {
      assert 0 <= j < i ==> before[..i][j] == before[j] && after[..i][j] == after[j];
    }
  }

  lemma JudgedSnoc(ops: seq<ResolvedOp>, selected: set<string>, targets: seq<Target>, before: seq<OpVerdict>,
        after: seq<OpVerdict>)
    requires |after| == |before| + 1 <= |ops| && after[..|before|] == before
    requires forall j :: 0 <= j < |before| ==> JudgedAt(ops, selected, targets, before, j)
    ensures forall j :: 0 <= j < |before| ==> JudgedAt(ops, selected, targets, after, j)
  {
    forall j | 0 <= j < |before| ensures JudgedAt(ops, selected, targets, after, j) {
      assert JudgedAt(ops, selected, targets, before, j);
      assert after[j] == before[j];
      assert before[..j] == after[..j] by {
        assert before[..j] == after[..|before|][..j];
      }
      ClashesSame(ops, before, after, j);
    }
  }

  // ---------- the laws of the greedy evaluation ----------

  /** Passed adds clash with no current selection and with no other passed add. */
  lemma PassedAddsAreClashFree(ops: seq<ResolvedOp>, selected: set<string>, targets: seq<Target>, vs: seq<OpVerdict>)
    requires Judged(ops, selected, targets, vs)
    ensures forall i, k :: 0 <= i < |ops| && 0 <= k < |targets| && ops[i].add && vs[i].writable ==>
      !Clash(ops[i].course.classTime, targets[k].days)
    ensures forall i, j ::
      0 <= i < |ops| && 0 <= j < |ops| && i != j && ops[i].add && ops[j].add && vs[i].writable && vs[j].writable ==>
      !Clash(ops[i].course.classTime, ops[j].course.classTime)
  {
    forall i, k | 0 <= i < |ops| && 0 <= k < |targets| && ops[i].add && vs[i].writable
      ensures !Clash(ops[i].course.classTime, targets[k].days)
    {
      assert JudgedAt(ops, selected, targets, vs, i);
      assert !ClashesTarget(ops[i], targets, k);
    }
    forall i, j | 0 <= i < |ops| && 0 <= j < |ops| && i != j && ops[i].add && ops[j].add && vs[i].writable
      && vs[j].writable
      ensures !Clash(ops[i].course.classTime, ops[j].course.classTime)
    {
      var low, high := if i < j then i else j, if i < j then j else i;
      assert JudgedAt(ops, selected, targets, vs, high);
      assert !ClashesStaged(ops, vs, high, low);
      ClashSymmetric(ops[i].course.classTime, ops[j].course.classTime);
    }
  }

  /** An unmixed add with a code is blocked exactly when it clashes with a
      selection or with an earlier passed add, and is told the first of them. */
  lemma BlockedExactlyByClash(ops: seq<ResolvedOp>, selected: set<string>, targets: seq<Target>, vs: seq<OpVerdict>,
        i: nat)
    requires Judged(ops, selected, targets, vs) && i < |ops|
    requires ops[i].add && ops[i].course.code.Some? && !IsMixed(ops, ops[i].course.code.value)
    ensures !vs[i].writable <==>
      (exists k :: 0 <= k < |targets| && Clash(ops[i].course.classTime, targets[k].days)) ||
      (exists j ::
        0 <= j < i && ops[j].add && vs[j].writable && Clash(ops[i].course.classTime, ops[j].course.classTime))
    ensures !vs[i].writable ==> FirstClash(ops, targets, vs, i, vs[i].detail)
  {
    assert JudgedAt(ops, selected, targets, vs, i);
    if exists k :: 0 <= k < |targets| && Clash(ops[i].course.classTime, targets[k].days) {
      var k :| 0 <= k < |targets| && Clash(ops[i].course.classTime, targets[k].days);
      assert ClashesTarget(ops[i], targets, k);
    }
    forall j | 0 <= j < i && ops[j].add && vs[j].writable && Clash(ops[i].course.classTime, ops[j].course.classTime)
      ensures ClashesStaged(ops, vs, i, j)
    {
    }
  }

  /** The judgement leaves no choice: two judged answers are the same. */
  lemma {:induction false} JudgementIsUnique(ops: seq<ResolvedOp>, selected: set<string>, targets: seq<Target>,
        a: seq<OpVerdict>, b: seq<OpVerdict>, n: nat)
    requires Judged(ops, selected, targets, a) && Judged(ops, selected, targets, b) && n <= |ops|
    ensures a[..n] == b[..n]
  {
    if n > 0 {
      var i := n - 1;
      JudgementIsUnique(ops, selected, targets, a, b, i);
      assert JudgedAt(ops, selected, targets, a, i) && JudgedAt(ops, selected, targets, b, i);
      ClashesSame(ops, a, b, i);
      assert a[i].verdict == b[i].verdict;
      if a[i].verdict.Conflict? {
        FirstClashUnique(ops, targets, a, b, i, a[i].detail, b[i].detail);
      }
      assert a[..n] == a[..i] + [a[i]] && b[..n] == b[..i] + [b[i]];
    }
  }

  lemma FirstClashUnique(ops: seq<ResolvedOp>, targets: seq<Target>, a: seq<OpVerdict>, b: seq<OpVerdict>, i: nat,
        x: Option<string>, y: Option<string>)
    requires i < |ops| && |a| >= i && |b| >= i && a[..i] == b[..i]
    requires FirstClash(ops, targets, a, i, x) && FirstClash(ops, targets, b, i, y)
    ensures x == y
  {
    ClashesSame(ops, a, b, i);
    if exists k :: ClashesTarget(ops[i], targets, k) {
      var k :| ClashesTarget(ops[i], targets, k) && x == Some(targets[k].name) && forall m ::
        0 <= m < k ==> !ClashesTarget(ops[i], targets, m);
      var l :| ClashesTarget(ops[i], targets, l) && y == Some(targets[l].name) && forall m ::
        0 <= m < l ==> !ClashesTarget(ops[i], targets, m);
      assert k == l;
    } else {
      var k :| ClashesStaged(ops, a, i, k) && x == ops[k].course.code && forall m ::
        0 <= m < k ==> !ClashesStaged(ops, a, i, m);
      var l :| ClashesStaged(ops, b, i, l) && y == ops[l].course.code && forall m ::
        0 <= m < l ==> !ClashesStaged(ops, b, i, m);
      assert ClashesStaged(ops, a, i, l) && ClashesStaged(ops, b, i, k);
      assert k == l;
    }
  }

  // ---------- request-shape checks ----------

  datatype OpIn = OpIn(add: bool, priority: Option<int>)
  datatype BadRequest = PriorityRequired | PriorityInvalid | PriorityDuplicate | PriorityForbidden | OpsLimitExceeded

  /** Adds carry pairwise distinct priorities in 1..20, drops carry none. */
  ghost predicate WellShaped(ops: seq<OpIn>) {
    && (forall i ::
          0 <= i < |ops| ==>
            if ops[i].add then ops[i].priority.Some? && 1 <= ops[i].priority.value <= 20 else ops[i].priority.None?)
    && (forall i, j :: 0 <= i < j < |ops| && ops[i].add && ops[j].add ==> ops[i].priority != ops[j].priority)
  }

  method ValidateOps(ops: seq<OpIn>, limit: nat) returns (bad: Option<BadRequest>)
    ensures bad.None? <==> WellShaped(ops) && |ops| <= limit
    ensures bad == Some(OpsLimitExceeded) <==> WellShaped(ops) && |ops| > limit
  {
    var seen: set<int> := {};
    for i := 0 to |ops|
      invariant WellShaped(ops[..i])
      invariant forall p :: p in seen <==> exists j :: 0 <= j < i && ops[j].add && ops[j].priority == Some(p)
    {
      assert ops[..i + 1] == ops[..i] + [ops[i]];
      if ops[i].add {
        if ops[i].priority.None? {
          return Some(PriorityRequired);
        }
        if !(1 <= ops[i].priority.value <= 20) {
          return Some(PriorityInvalid);
        }
        if ops[i].priority.value in seen {
          return Some(PriorityDuplicate);
        }
        seen := seen + {ops[i].priority.value};
      } else if ops[i].priority.Some? {
        return Some(PriorityForbidden);
      }
    }
    assert ops[..|ops|] == ops;
    if |ops| > limit {
      return Some(OpsLimitExceeded);
    }
    return None;
  }
}
