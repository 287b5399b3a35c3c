/** The `gridPlan` memo of `frontend/src/components/ScheduleTable.tsx`: occupancy
    per cell, then vertical spans of one course. */
module GridPlan {
  import opened Wrappers
  import opened Timeslots
  import opened Conflicts

  const STARTS := ["07:00", "08:10", "09:10", "10:10", "11:10", "12:10", "13:10",
    "14:10", "15:10", "16:10", "17:10", "18:20", "19:15", "20:10", "21:05"]
  const ENDS := ["07:50", "09:00", "10:00", "11:00", "12:00", "13:00", "14:00",
    "15:00", "16:00", "17:00", "18:00", "19:10", "20:05", "21:00", "21:55"]
  const ROWS: nat := 15

  datatype CellItem =
    | Render(rowSpan: nat, timeRange: Option<string>, courses: seq<Course>)
    | Skip

  // ---------- raw occupancy ----------

  /** The courses meeting on `day` in period `code`, in selection order. */
  function Occupants(courses: seq<Course>, day: nat, code: char): seq<Course> {
    if courses == [] then []
    else
      var last := courses[|courses| - 1];
      Occupants(courses[..|courses| - 1], day, code) + if code in Slot(TimeOf(last), day) then [last] else []
  }

  ghost predicate Occupied(raw: array2<seq<Course>>, courses: seq<Course>, day: nat)
    requires raw.Length0 == ROWS && day < raw.Length1
    reads raw
  {
    forall row :: 0 <= row < ROWS ==> raw[row, day] == Occupants(courses, day, PERIOD_CODES[row])
  }

  method RawGrid(courses: seq<Course>) returns (raw: array2<seq<Course>>)
    requires AllValid(courses)
    ensures fresh(raw) && raw.Length0 == ROWS && raw.Length1 == DAYS
    ensures forall day :: 0 <= day < DAYS ==> Occupied(raw, courses, day)
  {
    raw := new seq<Course>[ROWS, DAYS]((row, day) => []);
    assert courses[..0] == [] && courses[..|courses|] == courses;
    for n := 0 to |courses|
      invariant forall day :: 0 <= day < DAYS ==> Occupied(raw, courses[..n], day)
    {
      hide Occupied, ValidTime, ValidDay;
      ghost var before, after := courses[..n], courses[..n + 1];
      assert ValidTime(TimeOf(courses[n]));
      for day := 0 to DAYS
        invariant forall d :: 0 <= d < day ==> Occupied(raw, after, d)
        invariant forall d :: day <= d < DAYS ==> Occupied(raw, before, d)
      {
        PlaceOnDay(raw, courses, n, day);
      }
    }
  }

  method PlaceOnDay(raw: array2<seq<Course>>, courses: seq<Course>, n: nat, day: nat)
    requires n < |courses| && ValidTime(TimeOf(courses[n])) && raw.Length0 == ROWS && raw.Length1 == DAYS && day < DAYS
    requires Occupied(raw, courses[..n], day)
    modifies raw
    ensures Occupied(raw, courses[..n + 1], day)
    ensures forall k, d ::
      0 <= k <= |courses| && 0 <= d < DAYS && d != day && old(Occupied(raw, courses[..k], d)) ==>
        Occupied(raw, courses[..k], d)
  {
    hide Occupants, Codes, Slot, TimeOf, ValidDay;
    var parsed := ParseDayTimeString(Slot(TimeOf(courses[n]), day));
    for row := 0 to ROWS
      invariant forall r ::
        0 <= r < ROWS ==> raw[r, day] == Occupants(courses[..if r < row then n + 1 else n], day, PERIOD_CODES[r])
      invariant forall r, d :: 0 <= r < ROWS && 0 <= d < DAYS && d != day ==> raw[r, d] == old(raw[r, d])
    {
      OneMore(courses, n, day, PERIOD_CODES[row]);
      if PERIOD_CODES[row] in parsed.value {
        raw[row, day] := raw[row, day] + [courses[n]];
      }
    }
  }

  lemma OneMore(courses: seq<Course>, n: nat, day: nat, code: char)
    requires n < |courses|
    ensures Occupants(courses[..n + 1], day, code) == Occupants(courses[..n], day, code)
      + if code in Codes(Slot(TimeOf(courses[n]), day)) then [courses[n]] else []
  {
    assert courses[..n + 1][..n] == courses[..n];
    CodesMembers(Slot(TimeOf(courses[n]), day));
  }

  // ---------- the plan of one day column ----------

  type Column = seq<seq<Course>>

  /** Two cells held by one and the same course alone. */
  predicate Same(a: seq<Course>, b: seq<Course>) {
    |a| == 1 && |b| == 1 && a[0].id == b[0].id
  }

  /** How far the course of row `r` runs on without a break. */
  function Span(col: Column, r: nat): nat
    requires r < |col|
    decreases |col| - r
  {
    if r + 1 < |col| && Same(col[r], col[r + 1]) then 1 + Span(col, r + 1) else 1
  }

  function TimeRange(row: nat, span: nat): Option<string> {
    if row < ROWS && 1 <= span <= ROWS - row then Some(STARTS[row] + "–" + ENDS[row + span - 1]) else None
  }

  function PlanCell(col: Column, r: nat): CellItem
    requires r < |col|
  {
    if r > 0 && Same(col[r - 1], col[r]) then Skip
    else if |col[r]| == 1 then Render(Span(col, r), TimeRange(r, Span(col, r)), col[r])
    else Render(1, None, col[r])
  }

  function Plan(col: Column): seq<CellItem> {
    seq(|col|, r requires 0 <= r < |col| => PlanCell(col, r))
  }

  /** A run found by comparing with its first cell is the span. */
  lemma {:induction false} RunIsSpan(col: Column, r: nat, after: nat)
    requires r < after <= |col| && |col[r]| == 1
    requires forall t :: r < t < after ==> Same(col[r], col[t])
    requires after < |col| ==> !Same(col[r], col[after])
    ensures Span(col, r) == after - r
    decreases after - r
  {
    if r + 1 < after {
      assert Same(col[r], col[r + 1]);
      RunIsSpan(col, r + 1, after);
    }
  }

  lemma {:induction false} SpanRun(col: Column, r: nat)
    requires r < |col|
    ensures r < r + Span(col, r) <= |col|
    ensures forall t :: r < t < r + Span(col, r) ==> Same(col[t - 1], col[t]) && Same(col[r], col[t])
    ensures r + Span(col, r) < |col| ==> !Same(col[r + Span(col, r) - 1], col[r + Span(col, r)])
    decreases |col| - r
  {
    if r + 1 < |col| && Same(col[r], col[r + 1]) {
      SpanRun(col, r + 1);
    }
  }

  // ---------- the loops ----------

  function ColumnOf(raw: array2<seq<Course>>, day: nat): Column
    requires day < raw.Length1
    reads raw
  {
    seq(raw.Length0, r requires 0 <= r < raw.Length0 reads raw => raw[r, day])
  }

  method RunLength(raw: array2<seq<Course>>, rowIndex: nat, day: nat) returns (span: nat)
    requires rowIndex < raw.Length0 && day < raw.Length1 && |raw[rowIndex, day]| == 1
    ensures span == Span(ColumnOf(raw, day), rowIndex)
  {
    ghost var col := ColumnOf(raw, day);
    var single := raw[rowIndex, day][0];
    span := 1;
    while rowIndex + span < raw.Length0 && |raw[rowIndex + span, day]| == 1
      && raw[rowIndex + span, day][0].id == single.id
      invariant 1 <= span && rowIndex + span <= raw.Length0
      invariant forall t :: rowIndex < t < rowIndex + span ==> Same(col[rowIndex], col[t])
    {
      span := span + 1;
    }
    RunIsSpan(col, rowIndex, rowIndex + span);
  }

  /** The plan of every column, cell by cell. */
  method PlanMatrix(raw: array2<seq<Course>>) returns (plan: array2<CellItem>)
    ensures fresh(plan) && plan.Length0 == raw.Length0 && plan.Length1 == raw.Length1
    ensures forall r, day ::
      0 <= r < raw.Length0 && 0 <= day < raw.Length1 ==> plan[r, day] == PlanCell(ColumnOf(raw, day), r)
  {
    hide PlanCell;
    plan := new CellItem[raw.Length0, raw.Length1]((row, day) => Render(1, None, []));
    for day := 0 to raw.Length1
      invariant forall r, d :: 0 <= r < raw.Length0 && 0 <= d < day ==> plan[r, d] == PlanCell(ColumnOf(raw, d), r)
    {
      PlanDay(raw, plan, day);
    }
  }

  method PlanDay(raw: array2<seq<Course>>, plan: array2<CellItem>, day: nat)
    requires day < raw.Length1 && plan.Length0 == raw.Length0 && plan.Length1 == raw.Length1
    modifies plan
    ensures forall r :: 0 <= r < raw.Length0 ==> plan[r, day] == PlanCell(ColumnOf(raw, day), r)
    ensures forall r, d :: 0 <= r < plan.Length0 && 0 <= d < plan.Length1 && d != day ==> plan[r, d] == old(plan[r, d])
  {
    hide Span, TimeRange, PlanCell;
    ghost var col := ColumnOf(raw, day);
    var rowIndex := 0;
    while rowIndex < raw.Length0
      invariant rowIndex <= raw.Length0
      invariant 0 < rowIndex < raw.Length0 ==> !Same(col[rowIndex - 1], col[rowIndex])
      invariant forall r :: 0 <= r < rowIndex ==> plan[r, day] == PlanCell(col, r)
      invariant forall r, d ::
        0 <= r < plan.Length0 && 0 <= d < plan.Length1 && d != day ==> plan[r, d] == old(plan[r, d])
    {
      var cellCourses := raw[rowIndex, day];
      assert cellCourses == col[rowIndex];
      SpanRun(col, rowIndex);
      Starts(col, rowIndex);
      if |cellCourses| == 1 {
        var span := RunLength(raw, rowIndex, day);
        plan[rowIndex, day] := Render(span, TimeRange(rowIndex, span), [cellCourses[0]]);
        for s := 1 to span
          invariant forall r :: 0 <= r < rowIndex + s ==> plan[r, day] == PlanCell(col, r)
          invariant forall r, d ::
            0 <= r < plan.Length0 && 0 <= d < plan.Length1 && d != day ==> plan[r, d] == old(plan[r, d])
        {
          Continues(col, rowIndex + s);
          plan[rowIndex + s, day] := Skip;
        }
        rowIndex := rowIndex + span;
      } else {
        plan[rowIndex, day] := Render(1, None, cellCourses);
        rowIndex := rowIndex + 1;
      }
    }
  }

  lemma Starts(col: Column, r: nat)
    requires r < |col| && (r > 0 ==> !Same(col[r - 1], col[r]))
    ensures PlanCell(col, r) == if |col[r]| == 1 then Render(Span(col, r), TimeRange(r, Span(col, r)), [col[r][0]])
      else Render(1, None, col[r])
    ensures |col[r]| != 1 ==> r + 1 < |col| ==> !Same(col[r], col[r + 1])
  {
  }

  lemma Continues(col: Column, r: nat)
    requires 0 < r < |col| && Same(col[r - 1], col[r])
    ensures PlanCell(col, r) == Skip
  {
  }

  // ---------- the plan is lossless ----------

  /** From `r` on, render cells and the skips they cover follow one another to
      the end of the column. */
  ghost predicate TilesFrom(plan: seq<CellItem>, r: nat)
    decreases |plan| - r
  {
    r == |plan| || (
      && r < |plan| && plan[r].Render? && 1 <= plan[r].rowSpan && r + plan[r].rowSpan <= |plan|
      && (forall t :: r < t < r + plan[r].rowSpan ==> plan[t].Skip?)
      && TilesFrom(plan, r + plan[r].rowSpan))
  }

  lemma {:induction false} PlanTilesFrom(col: Column, r: nat)
    requires r <= |col| && (0 < r < |col| ==> !Same(col[r - 1], col[r]))
    ensures TilesFrom(Plan(col), r)
    decreases |col| - r
  {
    if r < |col| {
      SpanRun(col, r);
      var plan := Plan(col);
      assert plan[r] == PlanCell(col, r);
      var span := plan[r].rowSpan;
      forall t | r < t < r + span ensures plan[t].Skip? {
        assert Same(col[t - 1], col[t]);
      }
      PlanTilesFrom(col, r + span);
    }
  }

  /** Render cell `q` reaches over row `r`. */
  predicate Covers(plan: seq<CellItem>, q: int, r: int) {
    0 <= q <= r < |plan| && plan[q].Render? && r < q + plan[q].rowSpan
  }

  /** In a tiling every row lies under exactly one render cell. */
  lemma {:induction false} CoveredOnce(plan: seq<CellItem>, from: nat, r: nat) returns (q: nat)
    requires from <= r < |plan| && TilesFrom(plan, from)
    ensures from <= q && Covers(plan, q, r)
    ensures forall p :: from <= p && Covers(plan, p, r) ==> p == q
    decreases |plan| - from
  {
    var after := from + plan[from].rowSpan;
    if r < after {
      q := from;
    } else {
      q := CoveredOnce(plan, after, r);
      forall p | from <= p && Covers(plan, p, r) ensures p == q {
        assert from != p ==> p >= after;
      }
    }
  }

  /** The ids a plan shows in row `r`: those of the render cell above. */
  function Expand(plan: seq<CellItem>, r: nat): seq<string>
    requires r < |plan|
  {
    if plan[r].Render? then Ids(plan[r].courses) else if r == 0 then [] else Expand(plan, r - 1)
  }

  function Ids(courses: seq<Course>): seq<string> {
    seq(|courses|, i requires 0 <= i < |courses| => courses[i].id)
  }

  lemma {:induction false} ExpandIsRaw(col: Column, r: nat)
    requires r < |col|
    ensures Expand(Plan(col), r) == Ids(col[r])
  {
    var plan := Plan(col);
    assert plan[r] == PlanCell(col, r);
    if plan[r].Skip? {
      ExpandIsRaw(col, r - 1);
      assert Ids(col[r - 1]) == Ids(col[r]);
    }
  }

  /** For any occupancy of a column: the spans tile it, each row lies under
      exactly one render cell, of its own single course when it is skipped, spans
      cannot be lengthened, and the plan expands to the ids it was built from. */
  lemma PlanIsLossless(col: Column)
    ensures TilesFrom(Plan(col), 0)
    ensures forall r :: 0 <= r < |col| ==> Expand(Plan(col), r) == Ids(col[r])
    ensures forall r :: 0 <= r < |col| && Plan(col)[r].Render? ==> Plan(col)[r].courses == col[r]
    ensures forall r :: 0 <= r < |col| && Plan(col)[r].Render? && Plan(col)[r].rowSpan > 1 ==> |col[r]| == 1
  {
    PlanTilesFrom(col, 0);
    forall r | 0 <= r < |col|
      ensures Expand(Plan(col), r) == Ids(col[r])
      ensures Plan(col)[r].Render? ==> Plan(col)[r].courses == col[r]
    {
      ExpandIsRaw(col, r);
      assert Plan(col)[r] == PlanCell(col, r);
    }
  }

  lemma SkipsLieUnderTheirCourse(col: Column, r: nat) returns (q: nat)
    requires r < |col| && Plan(col)[r].Skip?
    ensures q < r && Covers(Plan(col), q, r) && Same(col[q], col[r]) && Plan(col)[q].courses == col[q]
    ensures forall p :: Covers(Plan(col), p, r) ==> p == q
  {
    PlanTilesFrom(col, 0);
    q := CoveredOnce(Plan(col), 0, r);
    assert Plan(col)[q] == PlanCell(col, q);
    SpanRun(col, q);
  }

  /** A render cell stops where its course stops, and starts where it starts. */
  lemma SpansAreMaximal(col: Column, q: nat)
    requires q < |col| && Plan(col)[q].Render? && |col[q]| == 1
    ensures var after := q + Plan(col)[q].rowSpan;
      && after <= |col| && (forall r :: q <= r < after ==> Same(col[q], col[r]))
      && (after < |col| ==> !Same(col[q], col[after]))
      && (q > 0 ==> !Same(col[q - 1], col[q]))
  {
    assert Plan(col)[q] == PlanCell(col, q);
    SpanRun(col, q);
  }

  // ---------- the hours of a cell ----------

  lemma OneRowRange(r: nat, start: string, end: string)
    requires r < 15 && start == STARTS[r] && end == ENDS[r]
    ensures TimeRange(r, 1) == Some(start + "–" + end)
  {
  }

  /** The school's hours of the first five rows. */
  lemma MorningHours()
    ensures TimeRange(0, 1) == Some("07:00" + "–" + "07:50")
    ensures TimeRange(1, 1) == Some("08:10" + "–" + "09:00")
    ensures TimeRange(2, 1) == Some("09:10" + "–" + "10:00")
    ensures TimeRange(3, 1) == Some("10:10" + "–" + "11:00")
    ensures TimeRange(4, 1) == Some("11:10" + "–" + "12:00")
  {
    OneRowRange(0, "07:00", "07:50");
    OneRowRange(1, "08:10", "09:00");
    OneRowRange(2, "09:10", "10:00");
    OneRowRange(3, "10:10", "11:00");
    OneRowRange(4, "11:10", "12:00");
  }

  /** The school's hours of the next five rows. */
  lemma NoonHours()
    ensures TimeRange(5, 1) == Some("12:10" + "–" + "13:00")
    ensures TimeRange(6, 1) == Some("13:10" + "–" + "14:00")
    ensures TimeRange(7, 1) == Some("14:10" + "–" + "15:00")
    ensures TimeRange(8, 1) == Some("15:10" + "–" + "16:00")
    ensures TimeRange(9, 1) == Some("16:10" + "–" + "17:00")
  {
    OneRowRange(5, "12:10", "13:00");
    OneRowRange(6, "13:10", "14:00");
    OneRowRange(7, "14:10", "15:00");
    OneRowRange(8, "15:10", "16:00");
    OneRowRange(9, "16:10", "17:00");
  }

  /** The school's hours of the last five rows. */
  lemma EveningHours()
    ensures TimeRange(10, 1) == Some("17:10" + "–" + "18:00")
    ensures TimeRange(11, 1) == Some("18:20" + "–" + "19:10")
    ensures TimeRange(12, 1) == Some("19:15" + "–" + "20:05")
    ensures TimeRange(13, 1) == Some("20:10" + "–" + "21:00")
    ensures TimeRange(14, 1) == Some("21:05" + "–" + "21:55")
  {
    OneRowRange(10, "17:10", "18:00");
    OneRowRange(11, "18:20", "19:10");
    OneRowRange(12, "19:15", "20:05");
    OneRowRange(13, "20:10", "21:00");
    OneRowRange(14, "21:05", "21:55");
  }

  /** A cell of one course shows the hours from the start of its first row to the
      end of its last. */
  lemma RangeIsOfItsRows(col: Column, r: nat)
    requires |col| == 15 && r < 15 && PlanCell(col, r).Render? && |col[r]| == 1
    ensures var cell := PlanCell(col, r); var last := r + cell.rowSpan - 1;
      && last < 15 && TimeRange(r, 1).Some? && TimeRange(last, 1).Some?
      && |TimeRange(r, 1).value| == |TimeRange(last, 1).value| == 11
      && cell.timeRange == Some(TimeRange(r, 1).value[..6] + TimeRange(last, 1).value[6..])
  {
    SpanRun(col, r);
    var last := r + Span(col, r) - 1;
    RangeParts(r, last);
  }

  lemma RangeParts(r: nat, last: nat)
    requires r <= last < 15
    ensures |STARTS[r]| == 5 && |ENDS[last]| == 5 && |ENDS[r]| == 5 && |STARTS[last]| == 5
    ensures TimeRange(r, 1).value[..6] == STARTS[r] + "–" && TimeRange(last, 1).value[6..] == ENDS[last]
  {
    assert forall i :: 0 <= i < 15 ==> |STARTS[i]| == 5 && |ENDS[i]| == 5;
  }
}
