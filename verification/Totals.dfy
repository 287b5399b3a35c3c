/** `frontend/src/lib/totals.ts`: credits and hours of a selection, and what the
    hours count. */
module Totals {
  import opened Wrappers
  import opened Timeslots
  import opened Conflicts

  datatype Totals = Totals(credits: int, hours: nat, courseCount: nat)

  function Credits(courses: seq<Course>): int {
    if courses == [] then 0
    else Credits(courses[..|courses| - 1]) + courses[|courses| - 1].credit.GetOr(0)
  }

  /** Each course adds its credit, and one without a credit nothing. */
  lemma CreditsAdd(courses: seq<Course>, c: Course)
    ensures Credits([]) == 0
    ensures Credits(courses + [c]) == Credits(courses) + match c.credit { case Some(n) => n case None => 0 }
  {
    assert (courses + [c])[..|courses|] == courses;
  }

  /** Hours of the first `days` days of one timetable. */
  function DayHours(time: seq<string>, days: nat): nat {
    if days == 0 then 0 else DayHours(time, days - 1) + |Codes(Slot(time, days - 1))|
  }

  function Hours(courses: seq<Course>): nat {
    if courses == [] then 0
    else Hours(courses[..|courses| - 1]) + DayHours(TimeOf(courses[|courses| - 1]), DAYS)
  }

  method TotalCreditsAndHours(courses: seq<Course>) returns (totals: Result<Totals, char>)
    ensures totals.Ok? <==> AllValid(courses)
    ensures totals.Ok? ==> totals.value == Totals(Credits(courses), Hours(courses), |courses|)
  {
    hide Codes, ValidDay, Slot, TimeOf;
    var credits, hours := 0, 0;
    for i := 0 to |courses|
      invariant credits == Credits(courses[..i]) && hours == Hours(courses[..i])
      invariant AllValid(courses[..i])
    {
      var course := courses[i];
      assert courses[..i + 1][..i] == courses[..i] && courses[..i + 1] == courses[..i] + [course];
      credits := credits + course.credit.GetOr(0);
      var before := hours;
      for day := 0 to DAYS
        invariant hours == before + DayHours(TimeOf(course), day)
        invariant forall d :: 0 <= d < day ==> ValidDay(Slot(TimeOf(course), d))
      {
        var parsed := ParseDayTimeString(Slot(TimeOf(course), day));
        if parsed.Err? {
          return Err(parsed.error);
        }
        hours := hours + |parsed.value|;
      }
    }
    assert courses[..|courses|] == courses;
    return Ok(Totals(credits, hours, |courses|));
  }

  // ---------- what the hours count ----------

  type Cell = (nat, char)

  /** The cells of one day. */
  function DayCells(day: nat, codes: string): set<Cell> {
    set c | c in codes :: (day, c)
  }

  /** The cells one timetable occupies on its first `days` days. */
  function TimeCells(time: seq<string>, days: nat): set<Cell> {
    if days == 0 then {} else TimeCells(time, days - 1) + DayCells(days - 1, Slot(time, days - 1))
  }

  function Cells(courses: seq<Course>): set<Cell> {
    if courses == [] then {}
    else Cells(courses[..|courses| - 1]) + TimeCells(TimeOf(courses[|courses| - 1]), DAYS)
  }

  lemma {:induction false} DayCellCount(day: nat, codes: string)
    requires NoRepeat(codes)
    ensures |DayCells(day, codes)| == |codes|
  {
    if codes != "" {
      var front, ch := codes[..|codes| - 1], codes[|codes| - 1];
      DayCellCount(day, front);
      assert codes == front + [ch];
      assert DayCells(day, codes) == DayCells(day, front) + {(day, ch)};
      assert (day, ch) !in DayCells(day, front);
    }
  }

  lemma {:induction false} TimeCellMembers(time: seq<string>, days: nat)
    ensures forall cell :: cell in TimeCells(time, days) <==> cell.0 < days && cell.1 in Slot(time, cell.0)
  {
    if days > 0 {
      TimeCellMembers(time, days - 1);
    }
  }

  /** One course counts each of its cells once. */
  lemma {:induction false} HoursAreCells(time: seq<string>, days: nat)
    ensures DayHours(time, days) == |TimeCells(time, days)|
  {
    hide Codes, Slot, DayCells;
    if days > 0 {
      HoursAreCells(time, days - 1);
      EarlierDaysApart(time, days - 1);
      DayCount(days - 1, Slot(time, days - 1));
    }
  }

  lemma DayCount(day: nat, raw: string)
    ensures |DayCells(day, raw)| == |Codes(raw)|
  {
    CodesMembers(raw);
    DayCellCount(day, Codes(raw));
    assert DayCells(day, Codes(raw)) == DayCells(day, raw);
  }

  lemma EarlierDaysApart(time: seq<string>, day: nat)
    ensures TimeCells(time, day) !! DayCells(day, Slot(time, day))
  {
    TimeCellMembers(time, day);
  }

  lemma {:induction false} CellMembers(courses: seq<Course>)
    ensures forall cell :: cell in Cells(courses) <==> exists i ::
      0 <= i < |courses| && cell in TimeCells(TimeOf(courses[i]), DAYS)
  {
    hide TimeOf, TimeCells;
    if courses != [] {
      CellMembers(courses[..|courses| - 1]);
    }
  }

  /** Two timetables share a cell exactly when they clash. */
  lemma SharedCellsExactly(a: seq<string>, b: seq<string>)
    ensures TimeCells(a, DAYS) !! TimeCells(b, DAYS) <==> !Clashing(a, b)
  {
    TimeCellMembers(a, DAYS);
    TimeCellMembers(b, DAYS);
    if !(TimeCells(a, DAYS) !! TimeCells(b, DAYS)) {
      var cell :| cell in TimeCells(a, DAYS) && cell in TimeCells(b, DAYS);
      assert SharesCell(a, b, cell.0, cell.1);
    }
    if Clashing(a, b) {
      var day: nat, code :| SharesCell(a, b, day, code);
      assert (day, code) in TimeCells(a, DAYS) && (day, code) in TimeCells(b, DAYS);
    }
  }

  ghost predicate ClashFree(courses: seq<Course>) {
    forall i, k :: 0 <= i < k < |courses| ==> !Clashing(TimeOf(courses[i]), TimeOf(courses[k]))
  }

  lemma LastIsApart(courses: seq<Course>)
    requires courses != []
    ensures var n := |courses| - 1;
      Cells(courses[..n]) !! TimeCells(TimeOf(courses[n]), DAYS) <==>
        forall i :: 0 <= i < n ==> !Clashing(TimeOf(courses[i]), TimeOf(courses[n]))
  {
    hide TimeOf, TimeCells, Clashing, Cells;
    var n := |courses| - 1;
    CellMembers(courses[..n]);
    forall i | 0 <= i < n
      ensures TimeCells(TimeOf(courses[i]), DAYS) !! TimeCells(TimeOf(courses[n]), DAYS) <==>
        !Clashing(TimeOf(courses[i]), TimeOf(courses[n]))
    {
      SharedCellsExactly(TimeOf(courses[i]), TimeOf(courses[n]));
    }
  }

  lemma UnionSize<T>(a: set<T>, b: set<T>)
    ensures |a + b| <= |a| + |b|
    ensures |a + b| == |a| + |b| <==> a !! b
  {
    assert a + b == a + (b - a) && b == (b - a) + (a * b);
    if !(a !! b) {
      var x :| x in a * b;
      assert |a * b| >= |{x}|;
    }
  }

  lemma {:induction false} HoursVersusCells(courses: seq<Course>)
    ensures Hours(courses) >= |Cells(courses)|
    ensures Hours(courses) == |Cells(courses)| <==> ClashFree(courses)
  {
    if courses != [] {
      var n := |courses| - 1;
      HoursVersusCells(courses[..n]);
      HoursAreCells(TimeOf(courses[n]), DAYS);
      LastIsApart(courses);
      UnionSize(Cells(courses[..n]), TimeCells(TimeOf(courses[n]), DAYS));
      ClashFreeSnoc(courses);
    }
  }

  lemma ClashFreeSnoc(courses: seq<Course>)
    requires courses != []
    ensures var n := |courses| - 1;
      ClashFree(courses) <==> ClashFree(courses[..n]) && forall i ::
        0 <= i < n ==> !Clashing(TimeOf(courses[i]), TimeOf(courses[n]))
  {
    hide Clashing, TimeOf;
  }

  /** Total hours are at least the distinct (day, period) cells occupied, and
      equal to them exactly when no clashing pair is reported. */
  lemma HoursCountCells(courses: seq<Course>)
    ensures Hours(courses) >= |Cells(courses)|
    ensures Hours(courses) == |Cells(courses)| <==> Pairs(courses, |courses|) == []
  {
    HoursVersusCells(courses);
    NoPairsExactly(courses, |courses|);
  }
}
