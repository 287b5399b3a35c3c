/** `write/payload.py`: replay the scraped hidden inputs, own the D/C/T slots. */
module Payload {
  import opened Wrappers
  import opened Digits
  import opened Ops
  import opened Segments

  const SSPRS_ROWS: nat := 15
  const STAGE5_ROWS: nat := 10
  const SEND_NAME := "send"
  const SEND_DEFAULT := "提交"

  type Form = map<string, string>

  predicate SameAt(a: Form, b: Form, key: string) {
    (key in a <==> key in b) && (key in b ==> a[key] == b[key])
  }

  function D(row: nat): string { "D" + Decimal(row) }
  function C(row: nat): string { "C" + Decimal(row) }
  function T(row: nat): string { "T" + Decimal(row) }

  function RowsTotal(hidden: Form, defaultRows: nat): nat {
    if "MAX_ADD" in hidden && AllDigits(hidden["MAX_ADD"]) then Number(hidden["MAX_ADD"]) else defaultRows
  }

  /** A row of the posted form as the school reads it. */
  datatype Row = Row(d: string, c: string, t: string)

  function OpRow(op: Op): Row {
    Row(ActionText(op), op.code, if op.Add? then Pad2(op.priority) else "")
  }

  const REST_ROW := Row("N", "", "")

  function RowOf(ops: seq<Op>, row: nat): Row
    requires row >= 1
  {
    if row <= |ops| then OpRow(ops[row - 1]) else REST_ROW
  }

  /** The keys the builder owns. */
  ghost predicate Slot(key: string, rows: nat) {
    exists r :: 1 <= r <= rows && IsSlotOf(key, r)
  }

  predicate IsSlotOf(key: string, r: nat) {
    key == D(r) || key == C(r) || key == T(r)
  }

  predicate ReadsBack(payload: Form, r: nat, row: Row) {
    && D(r) in payload && C(r) in payload && T(r) in payload
    && Row(payload[D(r)], payload[C(r)], payload[T(r)]) == row
  }

  /** The whole form: the ops row by row, rest rows up to the last slot. */
  ghost predicate Carries(payload: Form, ops: seq<Op>, rows: nat) {
    |ops| <= rows && forall r :: 1 <= r <= rows ==> ReadsBack(payload, r, RowOf(ops, r))
  }

  /** Everything outside the slots and `send` is replayed verbatim, nothing else
      is added. */
  ghost predicate Verbatim(payload: Form, hidden: Form, rows: nat) {
    forall key :: key != SEND_NAME && !Slot(key, rows) ==>
      (key in payload <==> key in hidden) && (key in hidden ==> payload[key] == hidden[key])
  }

  datatype BuildError = TooManyOps(ops: nat, rows: nat)

  ghost predicate IsBuild(built: Result<Form, BuildError>, ops: seq<Op>, hidden: Form, defaultRows: nat) {
    var rows := RowsTotal(hidden, defaultRows);
    match built
    case Err(e) => |ops| > rows && e == TooManyOps(|ops|, rows)
    case Ok(payload) =>
      && Carries(payload, ops, rows)
      && Verbatim(payload, hidden, rows)
      && SEND_NAME in payload
      && payload[SEND_NAME] == if SEND_NAME in hidden then hidden[SEND_NAME] else SEND_DEFAULT
  }

  lemma SlotsDistinct(r: nat, q: nat)
    ensures D(r) != C(q) && D(r) != T(q) && C(r) != T(q)
    ensures r != q ==> D(r) != D(q) && C(r) != C(q) && T(r) != T(q)
    ensures D(r) != SEND_NAME && C(r) != SEND_NAME && T(r) != SEND_NAME
  {
    assert D(r)[0] == 'D' && C(r)[0] == 'C' && T(r)[0] == 'T';
    assert D(q)[0] == 'D' && C(q)[0] == 'C' && T(q)[0] == 'T';
    assert D(r)[1..] == Decimal(r) && C(r)[1..] == Decimal(r) && T(r)[1..] == Decimal(r);
    assert D(q)[1..] == Decimal(q) && C(q)[1..] == Decimal(q) && T(q)[1..] == Decimal(q);
    if Decimal(r) == Decimal(q) {
      DecimalInjective(r, q);
    }
  }

  function WriteRow(payload: Form, ops: seq<Op>, row: nat): Form
    requires row >= 1
  {
    var r := RowOf(ops, row);
    payload[D(row) := r.d][C(row) := r.c][T(row) := r.t]
  }

  function Fill(hidden: Form, ops: seq<Op>, rows: nat): Form {
    if rows == 0 then hidden else WriteRow(Fill(hidden, ops, rows - 1), ops, rows)
  }

  function BuiltForm(ops: seq<Op>, hidden: Form, defaultRows: nat): Result<Form, BuildError> {
    var rows := RowsTotal(hidden, defaultRows);
    if |ops| > rows then Err(TooManyOps(|ops|, rows))
    else Ok(Fill(hidden, ops, rows)[SEND_NAME := if SEND_NAME in hidden then hidden[SEND_NAME] else SEND_DEFAULT])
  }

  /** Writing row `n` sets that row and leaves every other row and key alone. */
  lemma WriteRowOnly(before: Form, ops: seq<Op>, n: nat)
    requires n >= 1
    ensures ReadsBack(WriteRow(before, ops, n), n, RowOf(ops, n))
    ensures forall r, row ::
      1 <= r && r != n && ReadsBack(before, r, row) ==> ReadsBack(WriteRow(before, ops, n), r, row)
    ensures forall key :: !IsSlotOf(key, n) ==>
      (key in WriteRow(before, ops, n) <==> key in before)
        && (key in before ==> WriteRow(before, ops, n)[key] == before[key])
  {
    hide RowOf;
    SlotsDistinct(n, n);
    forall r, row | 1 <= r && r != n && ReadsBack(before, r, row) ensures ReadsBack(WriteRow(before, ops, n), r, row) {
      SlotsDistinct(r, n);
      SlotsDistinct(n, r);
    }
  }

  lemma {:induction false} FillCarries(hidden: Form, ops: seq<Op>, rows: nat)
    ensures forall r :: 1 <= r <= rows ==> ReadsBack(Fill(hidden, ops, rows), r, RowOf(ops, r))
    ensures forall key :: !Slot(key, rows) ==>
      (key in Fill(hidden, ops, rows) <==> key in hidden)
        && (key in hidden ==> Fill(hidden, ops, rows)[key] == hidden[key])
  {
    hide WriteRow, ReadsBack, RowOf, IsSlotOf;
    if rows > 0 {
      FillCarries(hidden, ops, rows - 1);
      var before, after := Fill(hidden, ops, rows - 1), Fill(hidden, ops, rows);
      WriteRowOnly(before, ops, rows);
      forall r | 1 <= r <= rows ensures ReadsBack(after, r, RowOf(ops, r)) {
        assert r < rows ==> ReadsBack(before, r, RowOf(ops, r));
      }
      forall key | !Slot(key, rows)
        ensures (key in after <==> key in hidden) && (key in hidden ==> after[key] == hidden[key])
      {
        assert !IsSlotOf(key, rows);
        assert !Slot(key, rows - 1);
      }
    }
  }

  /** A built form carries exactly the batch and the scraped fields; a batch is
      refused exactly when the form has too few rows. */
  lemma BuiltFormIsBuild(ops: seq<Op>, hidden: Form, defaultRows: nat)
    ensures IsBuild(BuiltForm(ops, hidden, defaultRows), ops, hidden, defaultRows)
  {
    var rows := RowsTotal(hidden, defaultRows);
    FillCarries(hidden, ops, rows);
    if |ops| <= rows {
      var payload := BuiltForm(ops, hidden, defaultRows).value;
      forall r | 1 <= r <= rows ensures ReadsBack(payload, r, RowOf(ops, r)) {
        SlotsDistinct(r, r);
        assert ReadsBack(Fill(hidden, ops, rows), r, RowOf(ops, r));
      }
    }
  }

  /** Row `k + 1` of a form as the school reads it: the sign of the op, its code,
      and an add's priority in two digits; every row past the batch is at rest. */
  predicate RowReads(form: Form, ops: seq<Op>, k: nat) {
    var n := Decimal(k + 1);
    && "D" + n in form && "C" + n in form && "T" + n in form
    && (k >= |ops| ==> form["D" + n] == "N" && form["C" + n] == "" && form["T" + n] == "")
    && (k < |ops| ==>
          && form["C" + n] == ops[k].code
          && form["D" + n] == (match ops[k] { case Add(_, _) => "+" case Drop(_) => "-" case Rest(_) => "N" })
          && (!ops[k].Add? ==> form["T" + n] == "")
          && (ops[k].Add? && ops[k].priority < 100 ==>
                form["T" + n] == ["0123456789"[ops[k].priority / 10], "0123456789"[ops[k].priority % 10]])
          && (ops[k].Add? && ops[k].priority >= 100 ==> form["T" + n] == Decimal(ops[k].priority)))
  }

  /** What the builder answers: the page's own row count decides, the default only
      where the page names none; a batch too long is refused with both counts. */
  ghost predicate PostsTheBatch(built: Result<Form, BuildError>, ops: seq<Op>, hidden: Form, defaultRows: nat) {
    var named := "MAX_ADD" in hidden && AllDigits(hidden["MAX_ADD"]);
    var rows := if named then Number(hidden["MAX_ADD"]) else defaultRows;
    match built
    case Err(e) => |ops| > rows && e == TooManyOps(|ops|, rows)
    case Ok(form) =>
      && |ops| <= rows && (forall k: nat :: k < rows ==> RowReads(form, ops, k))
      && "send" in form && form["send"] == (if "send" in hidden then hidden["send"] else "提交")
  }

  lemma FormReads(ops: seq<Op>, hidden: Form, defaultRows: nat, k: nat)
    requires BuiltForm(ops, hidden, defaultRows).Ok? && k < RowsTotal(hidden, defaultRows)
    ensures RowReads(BuiltForm(ops, hidden, defaultRows).value, ops, k)
  {
    BuiltFormIsBuild(ops, hidden, defaultRows);
    var form := BuiltForm(ops, hidden, defaultRows).value;
    assert ReadsBack(form, k + 1, RowOf(ops, k + 1));
    if k < |ops| && ops[k].Add? {
      Pad2Digits(ops[k].priority);
    }
  }

  lemma BuiltFormPosts(ops: seq<Op>, hidden: Form, defaultRows: nat)
    ensures PostsTheBatch(BuiltForm(ops, hidden, defaultRows), ops, hidden, defaultRows)
  {
    hide RowReads;
    BuiltFormIsBuild(ops, hidden, defaultRows);
    if BuiltForm(ops, hidden, defaultRows).Ok? {
      forall k: nat | k < RowsTotal(hidden, defaultRows)
        ensures RowReads(BuiltForm(ops, hidden, defaultRows).value, ops, k)
      {
        FormReads(ops, hidden, defaultRows, k);
      }
    }
  }

  method Build(ops: seq<Op>, hidden: Form, defaultRows: nat) returns (built: Result<Form, BuildError>)
    ensures built == BuiltForm(ops, hidden, defaultRows)
    ensures IsBuild(built, ops, hidden, defaultRows)
    ensures PostsTheBatch(built, ops, hidden, defaultRows)
  {
    hide IsBuild, PostsTheBatch, RowsTotal, D, C, T, Decimal, Pad2, ActionText;
    BuiltFormIsBuild(ops, hidden, defaultRows);
    BuiltFormPosts(ops, hidden, defaultRows);
    var rows := RowsTotal(hidden, defaultRows);
    if |ops| > rows {
      return Err(TooManyOps(|ops|, rows));
    }
    var payload := hidden;
    for row := 1 to rows + 1
      invariant payload == Fill(hidden, ops, row - 1)
    {
      var op := if row <= |ops| then Some(ops[row - 1]) else None;
      payload := payload[D(row) := if op.Some? then ActionText(op.value) else "N"];
      payload := payload[C(row) := if op.Some? then op.value.code else ""];
      payload := payload[T(row) := if op.Some? && op.value.Add? then Pad2(op.value.priority) else ""];
    }
    payload := payload[SEND_NAME := if SEND_NAME in hidden then hidden[SEND_NAME] else SEND_DEFAULT];
    return Ok(payload);
  }

  lemma SameRows(payload: Form, a: seq<Op>, b: seq<Op>, rows: nat)
    requires Carries(payload, a, rows) && Carries(payload, b, rows)
    ensures forall r :: 1 <= r <= rows ==> RowOf(a, r) == RowOf(b, r)
  {
    forall r | 1 <= r <= rows ensures RowOf(a, r) == RowOf(b, r) {
      assert ReadsBack(payload, r, RowOf(a, r)) && ReadsBack(payload, r, RowOf(b, r));
    }
  }

  /** The form determines the batch: two batches read back from one payload are
      the same batch. */
  lemma CarriesDeterminesBatch(payload: Form, a: seq<Op>, b: seq<Op>, rows: nat)
    requires Carries(payload, a, rows) && Carries(payload, b, rows)
    requires GoodCodes(a) && GoodCodes(b)
    ensures a == b
  {
    SameRows(payload, a, b, rows);
    NoLonger(a, b, rows);
    NoLonger(b, a, rows);
    forall i | 0 <= i < |a| ensures a[i] == b[i] {
      assert RowOf(a, i + 1) == RowOf(b, i + 1);
      if a[i].Add? && b[i].Add? {
        NumberOfPad2(a[i].priority);
        NumberOfPad2(b[i].priority);
      }
    }
  }

  lemma NoLonger(a: seq<Op>, b: seq<Op>, rows: nat)
    requires |a| <= rows && |b| <= rows && GoodCodes(b)
    requires forall r :: 1 <= r <= rows ==> RowOf(a, r) == RowOf(b, r)
    ensures |b| <= |a|
  {
    forall r | 1 <= r <= |b| ensures RowOf(b, r).c != "" {
      assert GoodCode(b[r - 1].code);
    }
    assert RowOf(a, |a| + 1) == REST_ROW;
  }

  lemma StepIsNoSlot(rows: nat)
    ensures "step" != SEND_NAME && !Slot("step", rows)
  {
    forall r | 1 <= r <= rows ensures !IsSlotOf("step", r) {
      assert D(r)[0] == 'D' && C(r)[0] == 'C' && T(r)[0] == 'T' && "step"[0] == 's';
    }
  }

  /** Posting sets `step` after the build; it is no slot, so the rows stay. */
  lemma StepKeepsRows(payload: Form, ops: seq<Op>, rows: nat, step: string)
    requires Carries(payload, ops, rows)
    ensures Carries(payload["step" := step], ops, rows)
  {
    forall r | 1 <= r <= rows ensures ReadsBack(payload["step" := step], r, RowOf(ops, r)) {
      assert D(r)[0] == 'D' && C(r)[0] == 'C' && T(r)[0] == 'T' && "step"[0] == 's';
      assert ReadsBack(payload, r, RowOf(ops, r));
    }
  }
}
