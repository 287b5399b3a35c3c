/** `frontend/src/lib/writeOps.ts`: the drafts of a batch, and the batch the
    preview is asked for. */
module Composer {
  import opened Wrappers
  import opened Priority
  import Preview
  import Reconcile

  datatype AddDraft = AddDraft(courseId: string, code: Option<string>, priority: Option<int>)
  datatype DropDraft = DropDraft(key: string, courseId: Option<string>, confirmCode: string, typed: string)

  datatype Composer = Composer(adds: seq<AddDraft>, drops: seq<DropDraft>, error: Option<EditError>)

  datatype PlanItem = PlanItem(courseId: string, priority: Option<int>, code: Option<string>)
  datatype Selection = Selection(courseId: Option<string>, code: Option<string>, courseNo: Option<string>,
      state: string)

  datatype Action =
    | SetPriority(courseId: string, raw: string)
    | ClearPriorityError
    | SetDropTyped(key: string, typed: string)
    | RemoveAdd(courseId: string)
    | RemoveDrop(key: string)
    | Reinit(plan: seq<PlanItem>, selections: seq<Selection>)

  // ---------- drafting ----------

  function Adds(plan: seq<PlanItem>): seq<AddDraft> {
    seq(|plan|, i requires 0 <= i < |plan| => AddDraft(plan[i].courseId, plan[i].code, plan[i].priority))
  }

  /** What was typed for a key before; of repeated keys the last. */
  function TypedFor(drops: seq<DropDraft>, key: string): string {
    if drops == [] then ""
    else if drops[|drops| - 1].key == key then drops[|drops| - 1].typed
    else TypedFor(drops[..|drops| - 1], key)
  }

  function KeyOf(item: Selection): Option<string> {
    if item.code.Some? then item.code else item.courseNo
  }

  function DraftsOf(item: Selection, prior: seq<DropDraft>): seq<DropDraft> {
    if KeyOf(item).Some? && item.state in Reconcile.SELECTED_STATES then
      [DropDraft(KeyOf(item).value, item.courseId, item.courseNo.GetOr(KeyOf(item).value),
        TypedFor(prior, KeyOf(item).value))]
    else []
  }

  function Drops(selections: seq<Selection>, prior: seq<DropDraft>): seq<DropDraft> {
    if selections == [] then []
    else Drops(selections[..|selections| - 1], prior) + DraftsOf(selections[|selections| - 1], prior)
  }

  /** The draft of one held selection: keyed by its code, or by its short number
      without one; the short number is what has to be typed, the key without one. */
  predicate DraftOf(item: Selection, prior: seq<DropDraft>, d: DropDraft) {
    && Some(d.key) == (if item.code.Some? then item.code else item.courseNo)
    && (item.state == "選上" || item.state == "登記加選") && d.courseId == item.courseId
    && d.confirmCode == (if item.courseNo.Some? then item.courseNo.value else d.key)
    && d.typed == TypedFor(prior, d.key)
  }

  lemma DraftExactly(item: Selection, prior: seq<DropDraft>, d: DropDraft)
    ensures d in DraftsOf(item, prior) <==> DraftOf(item, prior, d)
  {
  }

  /** The drop drafts are exactly the held selections that can be named, with what
      was typed for them before. */
  lemma {:induction false} DropsExactly(selections: seq<Selection>, prior: seq<DropDraft>, d: DropDraft)
    ensures d in Drops(selections, prior) <==> exists i :: 0 <= i < |selections| && DraftOf(selections[i], prior, d)
  {
    hide DraftOf, DraftsOf;
    if selections != [] {
      var n := |selections| - 1;
      DropsExactly(selections[..n], prior, d);
      DraftExactly(selections[n], prior, d);
      assert forall i :: 0 <= i < n ==> selections[..n][i] == selections[i];
    }
  }

  function InitComposer(plan: seq<PlanItem>, selections: seq<Selection>, prior: seq<DropDraft>): Composer {
    Composer(Adds(plan), Drops(selections, prior), None)
  }

  /** Draft `i` is the last one of its key. */
  predicate LastOfKey(drops: seq<DropDraft>, key: string, i: int) {
    0 <= i < |drops| && drops[i].key == key && forall j :: i < j < |drops| ==> drops[j].key != key
  }

  lemma {:induction false} TypedForIs(drops: seq<DropDraft>, key: string)
    ensures forall i :: LastOfKey(drops, key, i) ==> TypedFor(drops, key) == drops[i].typed
    ensures (forall i :: !LastOfKey(drops, key, i)) ==> TypedFor(drops, key) == ""
  {
    if drops != [] {
      var front, n := drops[..|drops| - 1], |drops| - 1;
      TypedForIs(front, key);
      if drops[n].key == key {
        assert LastOfKey(drops, key, n);
      } else {
        assert forall i :: LastOfKey(drops, key, i) <==> LastOfKey(front, key, i);
      }
    }
  }

  /** After a re-init every selection still held and nameable has its draft, and
      every draft holds the text typed last under its key, or none. */
  lemma TypedIsKept(plan: seq<PlanItem>, selections: seq<Selection>, prior: seq<DropDraft>)
    ensures var drops := InitComposer(plan, selections, prior).drops;
      && (forall i ::
            0 <= i < |selections| && KeyOf(selections[i]).Some? && selections[i].state in Reconcile.SELECTED_STATES ==>
            exists d :: d in drops && DraftOf(selections[i], prior, d))
      && (forall d, i :: d in drops && LastOfKey(prior, d.key, i) ==> d.typed == prior[i].typed)
      && (forall d :: d in drops && (forall i :: !LastOfKey(prior, d.key, i)) ==> d.typed == "")
  {
    var drops := InitComposer(plan, selections, prior).drops;
    forall i | 0 <= i < |selections| && KeyOf(selections[i]).Some? && selections[i].state in Reconcile.SELECTED_STATES
      ensures exists d :: d in drops && DraftOf(selections[i], prior, d)
    {
      var d := DraftsOf(selections[i], prior)[0];
      DropsExactly(selections, prior, d);
    }
    forall d | d in drops
      ensures forall i :: LastOfKey(prior, d.key, i) ==> d.typed == prior[i].typed
      ensures (forall i :: !LastOfKey(prior, d.key, i)) ==> d.typed == ""
    {
      DropsExactly(selections, prior, d);
      TypedForIs(prior, d.key);
    }
  }

  function Priorities(adds: seq<AddDraft>): PriorityMap {
    if adds == [] then map[]
    else Priorities(adds[..|adds| - 1])[adds[|adds| - 1].courseId := adds[|adds| - 1].priority]
  }

  function CourseIds(adds: seq<AddDraft>): seq<string> {
    seq(|adds|, i requires 0 <= i < |adds| => adds[i].courseId)
  }

  function WithPriority(adds: seq<AddDraft>, courseId: string, priority: Option<int>): seq<AddDraft> {
    seq(|adds|, i requires 0 <= i < |adds| =>
      if adds[i].courseId == courseId then adds[i].(priority := priority) else adds[i])
  }

  function WithoutAdd(adds: seq<AddDraft>, courseId: string): seq<AddDraft> {
    if adds == [] then []
    else
      var last := adds[|adds| - 1];
      WithoutAdd(adds[..|adds| - 1], courseId) + if last.courseId == courseId then [] else [last]
  }

  function WithoutDrop(drops: seq<DropDraft>, key: string): seq<DropDraft> {
    if drops == [] then []
    else WithoutDrop(drops[..|drops| - 1], key) + if drops[|drops| - 1].key == key then [] else [drops[|drops| - 1]]
  }

  function WithTyped(drops: seq<DropDraft>, key: string, typed: string): seq<DropDraft> {
    seq(|drops|, i requires 0 <= i < |drops| => if drops[i].key == key then drops[i].(typed := typed) else drops[i])
  }

  /** Places of a sequence of length `n`, in order. */
  ghost predicate Places(at: seq<nat>, n: nat) {
    (forall k :: 0 <= k < |at| ==> at[k] < n) && forall k, l :: 0 <= k < l < |at| ==> at[k] < at[l]
  }

  lemma NoPlaces()
    ensures Places([], 0)
  {
  }

  lemma PlacesSnoc(at: seq<nat>, n: nat)
    requires Places(at, n)
    ensures Places(at, n + 1) && Places(at + [n], n + 1)
    ensures forall k :: 0 <= k < |at| ==> at[k] < n
    ensures n !in at && forall i :: i in at + [n] <==> i in at || i == n
  {
  }

  /** What is left of the drafts after a removal stands at the places of the other
      courses, in their order. */
  lemma {:induction false} RestOfAdds(adds: seq<AddDraft>, courseId: string) returns (at: seq<nat>)
    ensures Places(at, |adds|) && |WithoutAdd(adds, courseId)| == |at|
    ensures forall k :: 0 <= k < |at| ==> WithoutAdd(adds, courseId)[k] == adds[at[k]]
    ensures forall i :: 0 <= i < |adds| ==> (i in at <==> adds[i].courseId != courseId)
  {
    hide Places;
    NoPlaces();
    at := [];
    if adds != [] {
      var front, n := adds[..|adds| - 1], |adds| - 1;
      at := RestOfAdds(front, courseId);
      assert forall i :: 0 <= i < n ==> front[i] == adds[i];
      PlacesSnoc(at, n);
      if adds[n].courseId != courseId {
        at := at + [n];
      }
    }
  }

  /** The same of the drops and a key. */
  lemma {:induction false} RestOfDrops(drops: seq<DropDraft>, key: string) returns (at: seq<nat>)
    ensures Places(at, |drops|) && |WithoutDrop(drops, key)| == |at|
    ensures forall k :: 0 <= k < |at| ==> WithoutDrop(drops, key)[k] == drops[at[k]]
    ensures forall i :: 0 <= i < |drops| ==> (i in at <==> drops[i].key != key)
  {
    hide Places;
    NoPlaces();
    at := [];
    if drops != [] {
      var front, n := drops[..|drops| - 1], |drops| - 1;
      at := RestOfDrops(front, key);
      assert forall i :: 0 <= i < n ==> front[i] == drops[i];
      PlacesSnoc(at, n);
      if drops[n].key != key {
        at := at + [n];
      }
    }
  }

  /** What one action makes of the state. A rejected edit only sets the error. */
  ghost predicate Reduces(state: Composer, action: Action, next: Composer) {
    match action
    case SetPriority(courseId, raw) =>
      var accepted := Acceptable(Priorities(state.adds), courseId, raw, CourseIds(state.adds));
      && (accepted ==> next == state.(adds := WithPriority(state.adds, courseId, Meant(raw)), error := None))
      && (!accepted ==> next == state.(error := next.error) && next.error.Some?)
    case ClearPriorityError => next == state.(error := None)
    case SetDropTyped(key, typed) => next == state.(drops := WithTyped(state.drops, key, typed))
    case RemoveAdd(courseId) => next == state.(adds := WithoutAdd(state.adds, courseId))
    case RemoveDrop(key) => next == state.(drops := WithoutDrop(state.drops, key))
    case Reinit(plan, selections) => next == InitComposer(plan, selections, state.drops)
  }

  /** `composerReducer`. */
  method Reduce(state: Composer, action: Action) returns (next: Composer)
    ensures Reduces(state, action, next)
    ensures Keeps(state.adds) && !action.Reinit? ==> Keeps(next.adds)
  {
    match action
    case SetPriority(courseId, raw) =>
      var priorities, error := ApplyPriorityEdit(Priorities(state.adds), courseId, raw, CourseIds(state.adds));
      if error.Some? {
        return state.(error := error);
      }
      EditKeeps(state.adds, courseId, raw);
      assert Of(priorities, courseId) == Meant(raw);
      next := state.(adds := WithPriority(state.adds, courseId, Of(priorities, courseId)), error := None);
    case ClearPriorityError => next := state.(error := None);
    case SetDropTyped(key, typed) => next := state.(drops := WithTyped(state.drops, key, typed));
    case RemoveAdd(courseId) =>
      RemoveKeeps(state.adds, courseId);
      next := state.(adds := WithoutAdd(state.adds, courseId));
    case RemoveDrop(key) => next := state.(drops := WithoutDrop(state.drops, key));
    case Reinit(plan, selections) => next := InitComposer(plan, selections, state.drops);
  }

  /** An accepted priority reaches the rows of its course and nothing else. */
  lemma PriorityReachesItsCourse(state: Composer, courseId: string, raw: string, next: Composer, i: nat)
    requires Reduces(state, SetPriority(courseId, raw), next) && next.error.None? && i < |state.adds|
    ensures |next.adds| == |state.adds| && next.drops == state.drops
    ensures next.adds[i].courseId == state.adds[i].courseId && next.adds[i].code == state.adds[i].code
    ensures next.adds[i].priority == if state.adds[i].courseId == courseId then Meant(raw) else state.adds[i].priority
  {
    assert Acceptable(Priorities(state.adds), courseId, raw, CourseIds(state.adds));
  }

  /** What is typed reaches the drafts of its key and nothing else. */
  lemma TypedReachesItsKey(state: Composer, key: string, typed: string, next: Composer, i: nat)
    requires Reduces(state, SetDropTyped(key, typed), next) && i < |state.drops|
    ensures |next.drops| == |state.drops| && next.adds == state.adds && next.error == state.error
    ensures next.drops[i].key == state.drops[i].key && next.drops[i].courseId == state.drops[i].courseId
    ensures next.drops[i].confirmCode == state.drops[i].confirmCode
    ensures next.drops[i].typed == if state.drops[i].key == key then typed else state.drops[i].typed
  {
    assert next.drops[i] == WithTyped(state.drops, key, typed)[i];
  }

  /** A re-init drafts every planned course, in the plan's order and with its
      priority. */
  lemma PlanIsDrafted(state: Composer, plan: seq<PlanItem>, selections: seq<Selection>, next: Composer, i: nat)
    requires Reduces(state, Reinit(plan, selections), next) && i < |plan|
    ensures |next.adds| == |plan| && next.error.None?
    ensures next.adds[i].courseId == plan[i].courseId && next.adds[i].code == plan[i].code
    ensures next.adds[i].priority == plan[i].priority
  {
    assert next.adds[i] == Adds(plan)[i];
  }

  // ---------- what the reducer keeps ----------

  /** One row per course, and given priorities are in 1..20 and pairwise distinct. */
  ghost predicate Keeps(adds: seq<AddDraft>) {
    && (forall i, j :: 0 <= i < j < |adds| ==> adds[i].courseId != adds[j].courseId)
    && (forall i, j :: 0 <= i < j < |adds| && adds[i].priority.Some? ==> adds[i].priority != adds[j].priority)
    && (forall i :: 0 <= i < |adds| && adds[i].priority.Some? ==> 1 <= adds[i].priority.value <= 20)
  }

  lemma {:induction false} PrioritiesAt(adds: seq<AddDraft>, i: nat)
    requires i < |adds| && forall k, j :: 0 <= k < j < |adds| ==> adds[k].courseId != adds[j].courseId
    ensures Of(Priorities(adds), adds[i].courseId) == adds[i].priority
  {
    if i < |adds| - 1 {
      PrioritiesAt(adds[..|adds| - 1], i);
    }
  }

  lemma EditKeeps(adds: seq<AddDraft>, courseId: string, raw: string)
    requires Acceptable(Priorities(adds), courseId, raw, CourseIds(adds))
    ensures Keeps(adds) ==> Keeps(WithPriority(adds, courseId, Meant(raw)))
  {
    if Keeps(adds) {
      forall i | 0 <= i < |adds| && adds[i].courseId != courseId && Meant(raw).Some? && !Clears(raw)
        ensures adds[i].priority != Meant(raw)
      {
        PrioritiesAt(adds, i);
        assert !TakenBy(Priorities(adds), courseId, CourseIds(adds), NumberNamed(raw), i);
      }
      assert Clears(raw) ==> Meant(raw).None?;
    }
  }

  lemma {:induction false} WithoutAddMembers(adds: seq<AddDraft>, courseId: string)
    requires forall i, j :: 0 <= i < j < |adds| ==> adds[i] != adds[j]
    ensures forall a :: a in WithoutAdd(adds, courseId) <==> a in adds && a.courseId != courseId
    ensures forall i, j ::
      0 <= i < j < |WithoutAdd(adds, courseId)| ==> WithoutAdd(adds, courseId)[i] != WithoutAdd(adds, courseId)[j]
  {
    if adds != [] {
      var front, last := adds[..|adds| - 1], adds[|adds| - 1];
      assert adds == front + [last];
      WithoutAddMembers(front, courseId);
      assert last !in front;
    }
  }

  lemma RemoveKeeps(adds: seq<AddDraft>, courseId: string)
    ensures Keeps(adds) ==> Keeps(WithoutAdd(adds, courseId))
  {
    if Keeps(adds) {
      WithoutAddMembers(adds, courseId);
      var rest := WithoutAdd(adds, courseId);
      forall i, j | 0 <= i < j < |rest|
        ensures rest[i].courseId != rest[j].courseId
          && (rest[i].priority.Some? ==> rest[i].priority != rest[j].priority)
      {
        assert rest[i] in adds && rest[j] in adds && rest[i] != rest[j];
      }
      forall i | 0 <= i < |rest| && rest[i].priority.Some? ensures 1 <= rest[i].priority.value <= 20 {
        assert rest[i] in adds;
      }
    }
  }

  lemma StepKeeps(state: Composer, action: Action, next: Composer)
    requires Reduces(state, action, next)
    ensures Keeps(state.adds) && !action.Reinit? ==> Keeps(next.adds)
    ensures action.Reinit? ==> (Keeps(next.adds) <==> Keeps(Adds(action.plan)))
  {
    hide Keeps;
    match action
    case SetPriority(courseId, raw) =>
      if Acceptable(Priorities(state.adds), courseId, raw, CourseIds(state.adds)) {
        EditKeeps(state.adds, courseId, raw);
      }
    case RemoveAdd(courseId) => RemoveKeeps(state.adds, courseId);
    case _ =>
  }

  /** The states a sequence of actions goes through. */
  ghost predicate Goes(states: seq<Composer>, actions: seq<Action>) {
    |states| == |actions| + 1 && forall i :: 0 <= i < |actions| ==> Reduces(states[i], actions[i], states[i + 1])
  }

  ghost predicate KeptThroughout(states: seq<Composer>) {
    forall i :: 0 <= i < |states| ==> Keeps(states[i].adds)
  }

  ghost predicate PlansAreFit(actions: seq<Action>) {
    forall i :: 0 <= i < |actions| && actions[i].Reinit? ==> Keeps(Adds(actions[i].plan))
  }

  /** Over any sequence of actions the drafts stay fit exactly when they begin so
      and every plan they are rebuilt from is. */
  lemma {:induction false} KeptExactly(states: seq<Composer>, actions: seq<Action>)
    requires Goes(states, actions)
    ensures KeptThroughout(states) <==> Keeps(states[0].adds) && PlansAreFit(actions)
  {
    hide Keeps, Reduces;
    if actions != [] {
      var n := |actions| - 1;
      var front, before := actions[..n], states[..n + 1];
      forall i | 0 <= i < n ensures Reduces(before[i], front[i], before[i + 1]) {
        assert Reduces(states[i], actions[i], states[i + 1]);
      }
      KeptExactly(before, front);
      StepKeeps(states[n], actions[n], states[n + 1]);
      assert forall i :: 0 <= i <= n ==> before[i] == states[i];
      assert forall i :: 0 <= i < n ==> front[i] == actions[i];
    }
  }

  // ---------- the batch ----------

  datatype OpOut = OpOut(add: bool, courseId: string, priority: Option<int>, confirmText: string)

  predicate DropIncludable(d: DropDraft) {
    d.typed == d.confirmCode
  }

  function AddOps(adds: seq<AddDraft>): seq<OpOut> {
    if adds == [] then []
    else
      var last := adds[|adds| - 1];
      AddOps(adds[..|adds| - 1]) + if last.priority.None? then [] else [OpOut(true, last.courseId, last.priority, "")]
  }

  function DropOps(drops: seq<DropDraft>): seq<OpOut> {
    if drops == [] then []
    else
      var last := drops[|drops| - 1];
      DropOps(drops[..|drops| - 1])
      + if DropIncludable(last) then [OpOut(false, last.courseId.GetOr(last.confirmCode), None, last.typed)] else []
  }

  /** The adds of the batch are the drafts with a priority, in their order. */
  lemma {:induction false} AddOpsExactly(adds: seq<AddDraft>) returns (at: seq<nat>)
    ensures Places(at, |adds|) && |AddOps(adds)| == |at|
    ensures forall k :: 0 <= k < |at| ==>
      AddOps(adds)[k] == OpOut(true, adds[at[k]].courseId, adds[at[k]].priority, "")
    ensures forall i :: 0 <= i < |adds| ==> (i in at <==> adds[i].priority.Some?)
  {
    hide Places;
    NoPlaces();
    at := [];
    if adds != [] {
      var front, n := adds[..|adds| - 1], |adds| - 1;
      at := AddOpsExactly(front);
      assert forall i :: 0 <= i < n ==> front[i] == adds[i];
      PlacesSnoc(at, n);
      if adds[n].priority.Some? {
        at := at + [n];
      }
    }
  }

  /** The op drops the course of the draft, or what its code names, and repeats
      what was typed. */
  predicate SaysDrop(op: OpOut, d: DropDraft) {
    && !op.add && op.priority.None? && op.confirmText == d.typed
    && op.courseId == if d.courseId.Some? then d.courseId.value else d.confirmCode
  }

  lemma DropSays(d: DropDraft)
    ensures SaysDrop(OpOut(false, d.courseId.GetOr(d.confirmCode), None, d.typed), d)
  {
  }

  /** `ops` are the drops of the drafts at the places `at`: of those whose code was
      typed in full, in their order. */
  ghost predicate DropsAt(ops: seq<OpOut>, drops: seq<DropDraft>, at: seq<nat>) {
    && Places(at, |drops|) && |ops| == |at|
    && (forall k :: 0 <= k < |at| ==> SaysDrop(ops[k], drops[at[k]]))
    && forall i :: 0 <= i < |drops| ==> (i in at <==> drops[i].typed == drops[i].confirmCode)
  }

  lemma DropsAtSkip(ops: seq<OpOut>, front: seq<DropDraft>, last: DropDraft, at: seq<nat>)
    requires DropsAt(ops, front, at) && last.typed != last.confirmCode
    ensures DropsAt(ops, front + [last], at)
  {
    hide SaysDrop;
    PlacesSnoc(at, |front|);
  }

  lemma DropsAtTake(ops: seq<OpOut>, front: seq<DropDraft>, last: DropDraft, at: seq<nat>, op: OpOut)
    requires DropsAt(ops, front, at) && last.typed == last.confirmCode && SaysDrop(op, last)
    ensures DropsAt(ops + [op], front + [last], at + [|front|])
  {
    hide SaysDrop;
    PlacesSnoc(at, |front|);
  }

  /** The drops of the batch are exactly those. */
  lemma {:induction false} DropOpsExactly(drops: seq<DropDraft>) returns (at: seq<nat>)
    ensures DropsAt(DropOps(drops), drops, at)
  {
    at := [];
    if drops != [] {
      hide SaysDrop, DropsAt;
      var front, last := drops[..|drops| - 1], drops[|drops| - 1];
      assert drops == front + [last];
      at := DropOpsExactly(front);
      if last.typed == last.confirmCode {
        DropSays(last);
        var op := OpOut(false, last.courseId.GetOr(last.confirmCode), None, last.typed);
        DropsAtTake(DropOps(front), front, last, at, op);
        at := at + [|front|];
      } else {
        DropsAtSkip(DropOps(front), front, last, at);
        assert DropOps(drops) == DropOps(front) + [];
      }
    }
  }

  method BuildPreviewOps(state: Composer) returns (ops: seq<OpOut>)
    ensures ops == AddOps(state.adds) + DropOps(state.drops)
  {
    ops := [];
    for i := 0 to |state.adds|
      invariant ops == AddOps(state.adds[..i])
    {
      assert state.adds[..i + 1][..i] == state.adds[..i];
      var add := state.adds[i];
      if add.priority.None? {
        continue;
      }
      ops := ops + [OpOut(true, add.courseId, add.priority, "")];
    }
    assert state.adds[..|state.adds|] == state.adds;
    for i := 0 to |state.drops|
      invariant ops == AddOps(state.adds) + DropOps(state.drops[..i])
    {
      assert state.drops[..i + 1][..i] == state.drops[..i];
      var drop := state.drops[i];
      if !DropIncludable(drop) {
        continue;
      }
      ops := ops + [OpOut(false, drop.courseId.GetOr(drop.confirmCode), None, drop.typed)];
    }
    assert state.drops[..|state.drops|] == state.drops;
  }

  /** The request as the server's shape checks read it. */
  function AsRequest(ops: seq<OpOut>): seq<Preview.OpIn> {
    seq(|ops|, i requires 0 <= i < |ops| => Preview.OpIn(ops[i].add, ops[i].priority))
  }

  ghost predicate FromAdd(adds: seq<AddDraft>, op: OpOut) {
    op.add && op.priority.Some? && exists i ::
      0 <= i < |adds| && adds[i].priority == op.priority && adds[i].courseId == op.courseId
  }

  lemma FromFront(front: seq<AddDraft>, last: AddDraft, op: OpOut)
    requires FromAdd(front, op)
    ensures FromAdd(front + [last], op)
  {
    var i :| 0 <= i < |front| && front[i].priority == op.priority && front[i].courseId == op.courseId;
    assert (front + [last])[i] == front[i];
  }

  lemma {:induction false} AddOpsMembers(adds: seq<AddDraft>)
    requires Keeps(adds)
    ensures forall k :: 0 <= k < |AddOps(adds)| ==> FromAdd(adds, AddOps(adds)[k])
    ensures forall k, l :: 0 <= k < l < |AddOps(adds)| ==> AddOps(adds)[k].priority != AddOps(adds)[l].priority
  {
    hide FromAdd;
    if adds != [] {
      var front, last := adds[..|adds| - 1], adds[|adds| - 1];
      assert adds == front + [last];
      AddOpsMembers(front);
      var before := AddOps(front);
      forall k | 0 <= k < |before| ensures FromAdd(adds, before[k]) && before[k].priority != last.priority {
        FromFront(front, last, before[k]);
        NotAgain(front, last, before[k]);
      }
      if last.priority.Some? {
        LastIsFrom(front, last);
      }
    }
  }

  lemma NotAgain(front: seq<AddDraft>, last: AddDraft, op: OpOut)
    requires Keeps(front + [last]) && FromAdd(front, op)
    ensures op.priority != last.priority
  {
    var i :| 0 <= i < |front| && front[i].priority == op.priority && front[i].courseId == op.courseId;
    assert (front + [last])[i] == front[i] && (front + [last])[|front|] == last;
  }

  lemma LastIsFrom(front: seq<AddDraft>, last: AddDraft)
    requires last.priority.Some?
    ensures FromAdd(front + [last], OpOut(true, last.courseId, last.priority, ""))
  {
    assert (front + [last])[|front|] == last;
  }

  lemma {:induction false} DropOpsMembers(drops: seq<DropDraft>)
    ensures forall k :: 0 <= k < |DropOps(drops)| ==> !DropOps(drops)[k].add && DropOps(drops)[k].priority.None?
  {
    if drops != [] {
      DropOpsMembers(drops[..|drops| - 1]);
    }
  }

  /** Drafts the reducer keeps in order always make a batch that passes the
      server's shape checks. */
  lemma BatchIsWellShaped(state: Composer)
    requires Keeps(state.adds)
    ensures Preview.WellShaped(AsRequest(AddOps(state.adds) + DropOps(state.drops)))
  {
    var adds, drops := AddOps(state.adds), DropOps(state.drops);
    AddOpsMembers(state.adds);
    DropOpsMembers(state.drops);
    var ops := AsRequest(adds + drops);
    forall i | 0 <= i < |ops|
      ensures if ops[i].add then ops[i].priority.Some? && 1 <= ops[i].priority.value <= 20 else ops[i].priority.None?
      ensures ops[i].add <==> i < |adds|
    {
      if i < |adds| {
        assert FromAdd(state.adds, adds[i]);
      } else {
        assert (adds + drops)[i] == drops[i - |adds|];
      }
    }
    forall i, j | 0 <= i < j < |ops| && ops[i].add && ops[j].add ensures ops[i].priority != ops[j].priority {
      assert ops[i].priority == adds[i].priority && ops[j].priority == adds[j].priority;
    }
  }
}
