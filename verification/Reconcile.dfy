/** `write/reconcile.py`: after a retried POST, one look at slt_result settles
    the ops whose answer may be about their own first attempt. */
module Reconcile {
  import opened Wrappers
  import opened Ops
  import opened Ledger

  /** A row of slt_result: the long course code, the short course number, either
      of which may be absent, and the state of the selection. */
  datatype Item = Item(code: Option<string>, courseNo: Option<string>, state: string)

  const SELECTED_STATES: set<string> := {"選上", "登記加選"}

  /** The dict comprehension over the items: the last row of a code wins. */
  function States(items: seq<Item>): map<string, string> {
    if items == [] then map[]
    else
      var front, last := States(items[..|items| - 1]), items[|items| - 1];
      if last.code.Some? then front[last.code.value := last.state] else front
  }

  predicate LastWithCode(items: seq<Item>, code: string, i: int) {
    0 <= i < |items| && items[i].code == Some(code) && forall j :: i < j < |items| ==> items[j].code != Some(code)
  }

  /** The last row with that long code says it is selected. */
  ghost predicate Held(items: seq<Item>, code: string) {
    exists i :: LastWithCode(items, code, i) && (items[i].state == "選上" || items[i].state == "登記加選")
  }

  lemma {:induction false} StatesHeld(items: seq<Item>, code: string)
    ensures Held(items, code) <==> code in States(items) && States(items)[code] in SELECTED_STATES
  {
    if items != [] {
      var n := |items| - 1;
      var front := items[..n];
      StatesHeld(front, code);
      if items[n].code == Some(code) {
        assert LastWithCode(items, code, n);
      } else {
        assert forall i :: LastWithCode(items, code, i) <==> LastWithCode(front, code, i);
      }
    }
  }

  const ADD_LISTED := "對帳確認:slt_result 載選上/登記加選"
  const ADD_NOT_LISTED := "對帳確認:slt_result 未選上,加選未成立"
  const DROP_STILL_LISTED := "對帳確認:slt_result 仍載選上,退選未成立"
  const DROP_NOT_LISTED := "對帳確認:slt_result 無選上紀錄,退選成立"

  /** The school-side message of a settled row. */
  function Note(op: Op, selected: bool): string {
    if op.Add? then
      if selected then ADD_LISTED else ADD_NOT_LISTED
    else
      if selected then DROP_STILL_LISTED else DROP_NOT_LISTED
  }

  function Settle(u: Update, op: Op, selected: bool): Update {
    Update(u.audit, if op.Add? == selected then Success else Rejected, Some(Note(op, selected)))
  }

  predicate Selected(states: map<string, string>, code: string) {
    code in states && states[code] in SELECTED_STATES
  }

  function Reconciled(updates: seq<Update>, ops: seq<Op>, items: seq<Item>): seq<Update>
    requires |updates| == |ops|
  {
    seq(|updates|, k requires 0 <= k < |updates| =>
      if updates[k].outcome.UnknownReconciled? then Settle(updates[k], ops[k], Selected(States(items), ops[k].code))
      else updates[k])
  }

  predicate AnyUnknown(updates: seq<Update>) {
    exists k :: 0 <= k < |updates| && updates[k].outcome.UnknownReconciled?
  }

  /** Ids and order stay, only unknown rows change, and each of them gets the
      outcome the school's list gives it. */
  ghost predicate SettledBy(before: seq<Update>, after: seq<Update>, ops: seq<Op>, items: seq<Item>)
    requires |before| == |ops|
  {
    |after| == |before| && forall k :: 0 <= k < |before| ==>
      && after[k].audit == before[k].audit
      && (!before[k].outcome.UnknownReconciled? ==> after[k] == before[k])
      && (before[k].outcome.UnknownReconciled? ==>
            && after[k].outcome == (if ops[k].Add? == Held(items, ops[k].code) then Success else Rejected)
            && after[k].schoolMsg == Some(Note(ops[k], Held(items, ops[k].code))))
  }

  method ReconcileUpdates(updates: seq<Update>, ops: seq<Op>, items: seq<Item>) returns (reconciled: seq<Update>)
    requires |updates| == |ops|
    ensures reconciled == Reconciled(updates, ops, items)
    ensures SettledBy(updates, reconciled, ops, items)
  {
    var states: map<string, string> := map[];
    for i := 0 to |items|
      invariant states == States(items[..i])
    {
      assert items[..i + 1][..i] == items[..i];
      if items[i].code.Some? {
        states := states[items[i].code.value := items[i].state];
      }
    }
    assert items[..|items|] == items;
    reconciled := [];
    for k := 0 to |updates|
      invariant |reconciled| == k
      invariant reconciled == Reconciled(updates, ops, items)[..k]
    {
      if !updates[k].outcome.UnknownReconciled? {
        reconciled := reconciled + [updates[k]];
        continue;
      }
      reconciled := reconciled + [Settle(updates[k], ops[k], Selected(states, ops[k].code))];
    }
    assert Reconciled(updates, ops, items)[..|updates|] == Reconciled(updates, ops, items);
    ReconciledSettles(updates, ops, items);
  }

  lemma ReconciledSettles(updates: seq<Update>, ops: seq<Op>, items: seq<Item>)
    requires |updates| == |ops|
    ensures SettledBy(updates, Reconciled(updates, ops, items), ops, items)
    ensures !AnyUnknown(Reconciled(updates, ops, items))
  {
    forall k | 0 <= k < |updates|
      ensures updates[k].outcome.UnknownReconciled? ==>
        && Reconciled(updates, ops, items)[k].outcome ==
            (if ops[k].Add? == Held(items, ops[k].code) then Success else Rejected)
        && Reconciled(updates, ops, items)[k].schoolMsg == Some(Note(ops[k], Held(items, ops[k].code)))
    {
      StatesHeld(items, ops[k].code);
    }
  }

  // ---------- the number an op names ----------

  /** What an op's code names a row by: the short number, and the long code only
      where there is none. */
  function Number(item: Item): Option<string> {
    if item.courseNo.Some? then item.courseNo else item.code
  }

  predicate LastWithNumber(items: seq<Item>, code: string, i: int) {
    0 <= i < |items| && Number(items[i]) == Some(code) && forall j :: i < j < |items| ==> Number(items[j]) != Some(code)
  }

  /** The last row with that number says it is selected. */
  ghost predicate HeldAs(items: seq<Item>, code: string) {
    exists i :: LastWithNumber(items, code, i) && (items[i].state == "選上" || items[i].state == "登記加選")
  }

  /** What an op came to, as the list has it under the op's own number. */
  ghost function ListedOutcome(op: Op, items: seq<Item>): Outcome {
    if op.Add? == HeldAs(items, op.code) then Success else Rejected
  }

  /** The same rows in other states. */
  function Restated(items: seq<Item>, states: seq<string>): seq<Item>
    requires |states| == |items|
  {
    seq(|items|, i requires 0 <= i < |items| => items[i].(state := states[i]))
  }

  /** The row the code reads for it is the row its number names, or there is
      neither; the states play no part. */
  ghost predicate OneLastRow(items: seq<Item>, code: string) {
    forall i :: LastWithCode(items, code, i) <==> LastWithNumber(items, code, i)
  }

  lemma RestatedRows(items: seq<Item>, states: seq<string>, code: string)
    requires |states| == |items|
    ensures forall i :: LastWithCode(Restated(items, states), code, i) <==> LastWithCode(items, code, i)
    ensures forall i :: LastWithNumber(Restated(items, states), code, i) <==> LastWithNumber(items, code, i)
    ensures OneLastRow(Restated(items, states), code) <==> OneLastRow(items, code)
  {
    var other := Restated(items, states);
    assert forall i :: 0 <= i < |items| ==> other[i].code == items[i].code && Number(other[i]) == Number(items[i]);
  }

  lemma OneRowReadsRight(items: seq<Item>, code: string)
    requires OneLastRow(items, code)
    ensures Held(items, code) <==> HeldAs(items, code)
  {
    if i :| LastWithCode(items, code, i) && items[i].state in SELECTED_STATES {
      assert LastWithNumber(items, code, i);
    }
    if i :| LastWithNumber(items, code, i) && items[i].state in SELECTED_STATES {
      assert LastWithCode(items, code, i);
    }
  }

  /** Only row `i` selected. */
  function OnlySelected(n: nat, i: int): seq<string> {
    seq(n, j => if j == i then "選上" else "")
  }

  lemma OnlySelectedHeld(items: seq<Item>, code: string, i: int)
    requires 0 <= i < |items|
    ensures var only := Restated(items, OnlySelected(|items|, i));
      && (Held(only, code) <==> LastWithCode(items, code, i))
      && (HeldAs(only, code) <==> LastWithNumber(items, code, i))
  {
    var only := Restated(items, OnlySelected(|items|, i));
    RestatedRows(items, OnlySelected(|items|, i), code);
    assert forall j :: 0 <= j < |items| ==> (only[j].state in SELECTED_STATES <==> j == i);
    if LastWithCode(items, code, i) {
      assert LastWithCode(only, code, i) && only[i].state in SELECTED_STATES;
    }
    if LastWithNumber(items, code, i) {
      assert LastWithNumber(only, code, i) && only[i].state in SELECTED_STATES;
    }
  }

  /** Looking a course up by its long code finds what the list says of its
      number, whatever the states, exactly when both name one last row. */
  lemma ReadsRightExactly(items: seq<Item>, code: string)
    ensures (forall states: seq<string> {:trigger Restated(items, states)} :: |states| == |items| ==>
        (Held(Restated(items, states), code) <==> HeldAs(Restated(items, states), code)))
      <==> OneLastRow(items, code)
  {
    if OneLastRow(items, code) {
      forall states: seq<string> | |states| == |items|
        ensures Held(Restated(items, states), code) <==> HeldAs(Restated(items, states), code)
      {
        RestatedRows(items, states, code);
        OneRowReadsRight(Restated(items, states), code);
      }
    } else {
      var i :| LastWithCode(items, code, i) != LastWithNumber(items, code, i);
      OnlySelectedHeld(items, code, i);
      assert |OnlySelected(|items|, i)| == |items|;
    }
  }

  /** The outcome reconciling records is the listed one exactly when both
      readings agree. */
  lemma SettledAsListedExactly(updates: seq<Update>, ops: seq<Op>, items: seq<Item>, k: nat)
    requires |updates| == |ops| && k < |ops| && updates[k].outcome.UnknownReconciled?
    ensures Reconciled(updates, ops, items)[k].outcome == ListedOutcome(ops[k], items)
      <==> (Held(items, ops[k].code) <==> HeldAs(items, ops[k].code))
  {
    ReconciledSettles(updates, ops, items);
  }

  /** A row as the school lists it: the long code and the number differ. */
  const LIVE_ROW := Item(Some("M3046243"), Some("CSE515"), "選上")

  lemma LiveRowIsNotRead()
    ensures HeldAs([LIVE_ROW], "CSE515") && !Held([LIVE_ROW], "CSE515")
  {
    assert LastWithNumber([LIVE_ROW], "CSE515", 0);
    assert LIVE_ROW.code.value[0] == 'M' && "CSE515"[0] == 'C';
  }

  /** So an add that took effect is settled as rejected, and a drop that did not
      as a success. */
  lemma LiveRowIsMisread(updates: seq<Update>)
    requires |updates| == 2 && updates[0].outcome.UnknownReconciled? && updates[1].outcome.UnknownReconciled?
    ensures var settled := Reconciled(updates, [Add("CSE515", 1), Drop("CSE515")], [LIVE_ROW]);
      settled[0].outcome == Rejected && settled[1].outcome == Success
  {
    LiveRowIsNotRead();
    ReconciledSettles(updates, [Add("CSE515", 1), Drop("CSE515")], [LIVE_ROW]);
  }
}
