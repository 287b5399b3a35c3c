/** What the preview endpoint hands to the evaluation: the ops resolved against
    the catalog (`write/catalog.py`) and the current selections as timetables
    (`_selection_targets` of `api/write.py`). */
module PreviewInputs {
  import opened Wrappers
  import opened Timetable
  import opened Preview

  // ---------- catalog resolution ----------

  datatype CatalogRow = CatalogRow(id: string, yearSem: string, code: Option<string>, classTime: seq<string>,
      remaining: Option<int>)

  /** An ident is a row id when it reads as a uuid, otherwise a code. */
  datatype Ident = ById(id: string) | ByCode(code: string)

  const COURSE_NOT_FOUND := Course(None, [], None)

  predicate Named(row: CatalogRow, yearSem: string, ident: Ident) {
    row.yearSem == yearSem && match ident case ById(id) => row.id == id case ByCode(code) => row.code == Some(code)
  }

  /** Ids are the primary key; `UNIQUE(year_sem, code)` lets rows without a code
      repeat. */
  predicate TableKeys(rows: seq<CatalogRow>) {
    forall i, j :: 0 <= i < j < |rows| ==>
      && rows[i].id != rows[j].id
      && (rows[i].yearSem == rows[j].yearSem && rows[i].code.Some? ==> rows[i].code != rows[j].code)
  }

  /** The one row of the ident in the current semester, or the empty shape. */
  predicate ResolvesTo(rows: seq<CatalogRow>, yearSem: string, ident: Ident, course: Course) {
    if exists i :: 0 <= i < |rows| && Named(rows[i], yearSem, ident) then
      exists i :: 0 <= i < |rows| && Named(rows[i], yearSem, ident) && course == InfoOf(rows[i])
    else course == COURSE_NOT_FOUND
  }

  function InfoOf(row: CatalogRow): Course {
    Course(row.code, row.classTime, row.remaining)
  }

  /** Adds resolve through the catalog only. */
  ghost predicate AddsResolved(rows: seq<CatalogRow>, yearSem: string, ops: seq<ResolvedOp>) {
    forall i :: 0 <= i < |ops| && ops[i].add ==> exists ident :: ResolvesTo(rows, yearSem, ident, ops[i].course)
  }

  lemma SameCodeSameRow(rows: seq<CatalogRow>, k: nat, l: nat)
    requires TableKeys(rows) && k < |rows| && l < |rows|
    requires rows[k].yearSem == rows[l].yearSem && rows[k].code.Some? && rows[k].code == rows[l].code
    ensures k == l
  {
  }

  lemma NamedOnce(rows: seq<CatalogRow>, yearSem: string, ident: Ident, k: nat, l: nat)
    requires TableKeys(rows) && k < |rows| && l < |rows|
    requires Named(rows[k], yearSem, ident) && Named(rows[l], yearSem, ident)
    ensures k == l
  {
  }

  /** Two adds of one code, by whatever idents, are one catalog row. */
  lemma OneCodeIsOneCourse(rows: seq<CatalogRow>, yearSem: string, ops: seq<ResolvedOp>, i: nat, j: nat)
    requires TableKeys(rows) && AddsResolved(rows, yearSem, ops)
    requires i < |ops| && j < |ops| && ops[i].add && ops[j].add
    requires ops[i].course.code.Some? && ops[i].course.code == ops[j].course.code
    ensures ops[i].course == ops[j].course
  {
    var a :| ResolvesTo(rows, yearSem, a, ops[i].course);
    var b :| ResolvesTo(rows, yearSem, b, ops[j].course);
    var k :| 0 <= k < |rows| && Named(rows[k], yearSem, a) && ops[i].course == InfoOf(rows[k]);
    var l :| 0 <= l < |rows| && Named(rows[l], yearSem, b) && ops[j].course == InfoOf(rows[l]);
    SameCodeSameRow(rows, k, l);
  }

  /** The resolved course is the one row the ident names, or nothing. */
  lemma ResolvesToItsRow(rows: seq<CatalogRow>, yearSem: string, ident: Ident, course: Course)
    requires TableKeys(rows) && ResolvesTo(rows, yearSem, ident, course)
    requires ident.ById? || ident.ByCode?
    ensures forall i :: 0 <= i < |rows| && rows[i].yearSem == yearSem ==>
      (match ident case ById(id) => rows[i].id == id case ByCode(code) => rows[i].code == Some(code)) ==>
        course.code == rows[i].code && course.classTime == rows[i].classTime && course.remaining == rows[i].remaining
    ensures (forall i :: 0 <= i < |rows| && rows[i].yearSem == yearSem ==>
        match ident case ById(id) => rows[i].id != id case ByCode(code) => rows[i].code != Some(code)) ==>
      course.code == None && course.classTime == [] && course.remaining == None
  {
    if exists i :: 0 <= i < |rows| && Named(rows[i], yearSem, ident) {
      var k :| 0 <= k < |rows| && Named(rows[k], yearSem, ident) && course == InfoOf(rows[k]);
      forall i | 0 <= i < |rows| && Named(rows[i], yearSem, ident) ensures i == k {
        NamedOnce(rows, yearSem, ident, i, k);
      }
    }
  }

  // ---------- selections as clash targets ----------

  /** A synced selection: its name, the catalog timetable when its course id is
      known there, and the fused cell of slt_result. */
  datatype Selection = Selection(name: string, catalogDays: Option<seq<string>>, times: Option<string>)

  /** The timetable of a selection: the catalog row decides when there is one. */
  function DaysOf(item: Selection): Result<Option<seq<string>>, char> {
    if item.catalogDays.Some? then Ok(item.catalogDays) else FusedDays(item.times)
  }

  /** The catalog's timetable decides over the cell; without either there is none. */
  lemma CatalogDecides(item: Selection)
    ensures item.catalogDays.Some? ==> DaysOf(item) == Ok(Some(item.catalogDays.value))
    ensures item.catalogDays.None? && item.times.None? ==> DaysOf(item) == Ok(None)
    ensures item.catalogDays.None? && item.times.Some? ==> DaysOf(item) == FusedDays(item.times)
  {
  }

  /** One target per selection with a timetable, in order, or the first error. */
  function TargetsOf(items: seq<Selection>): Result<seq<Target>, char> {
    if items == [] then Ok([])
    else
      var before := TargetsOf(items[..|items| - 1]);
      if before.Err? then before
      else
        var item := items[|items| - 1];
        match DaysOf(item)
        case Err(c) => Err(c)
        case Ok(None) => before
        case Ok(Some(days)) => Ok(before.value + [Target(item.name, days)])
  }

  method SelectionTargets(items: seq<Selection>) returns (targets: Result<seq<Target>, char>)
    ensures targets == TargetsOf(items)
  {
    var found: seq<Target> := [];
    for i := 0 to |items|
      invariant TargetsOf(items[..i]) == Ok(found)
    {
      var item := items[i];
      ghost var next := items[..i + 1];
      assert next[..i] == items[..i];
      var days := None;
      if item.catalogDays.Some? {
        days := item.catalogDays;
      } else if item.times.Some? {
        var fused := DaysFromFused(item.times);
        if fused.Err? {
          FirstErrorStays(items, i + 1);
          return Err(fused.error);
        }
        days := fused.value;
      }
      if days.Some? {
        found := found + [Target(item.name, days.value)];
      }
    }
    assert items[..|items|] == items;
    return Ok(found);
  }

  lemma {:induction false} FirstErrorStays(items: seq<Selection>, n: nat)
    requires n <= |items| && TargetsOf(items[..n]).Err?
    ensures TargetsOf(items) == TargetsOf(items[..n])
    decreases |items|
  {
    if n == |items| {
      assert items[..n] == items;
    } else {
      assert items[..|items| - 1][..n] == items[..n];
      FirstErrorStays(items[..|items| - 1], n);
    }
  }

  /** A selection without a timetable is no target: the evaluation is the one it
      would be without it. */
  lemma {:induction false} UntimedIsInvisible(items: seq<Selection>, i: nat)
    requires i < |items| && DaysOf(items[i]) == Ok(None)
    ensures TargetsOf(items) == TargetsOf(items[..i] + items[i + 1..])
  {
    var n := |items| - 1;
    if i == n {
      assert items[..i] + items[i + 1..] == items[..n];
    } else {
      UntimedIsInvisible(items[..n], i);
      var fewer := items[..i] + items[i + 1..];
      assert fewer[..|fewer| - 1] == items[..n][..i] + items[..n][i + 1..];
      assert fewer[|fewer| - 1] == items[n];
    }
  }

  predicate IsTargetOf(item: Selection, target: Target) {
    item.name == target.name && DaysOf(item) == Ok(Some(target.days))
  }

  /** The targets are exactly the selections with a timetable. */
  lemma {:induction false} TargetsAreTheTimed(items: seq<Selection>, target: Target)
    requires TargetsOf(items).Ok?
    ensures target in TargetsOf(items).value <==> exists i :: 0 <= i < |items| && IsTargetOf(items[i], target)
  {
    if items != [] {
      var n := |items| - 1;
      TargetsAreTheTimed(items[..n], target);
      assert forall i :: 0 <= i < n ==> items[..n][i] == items[i];
      if exists i :: 0 <= i < n && IsTargetOf(items[..n][i], target) {
        var i :| 0 <= i < n && IsTargetOf(items[..n][i], target);
        assert IsTargetOf(items[i], target);
      }
      assert IsTargetOf(items[n], target) <==>
        DaysOf(items[n]).value.Some? && target == Target(items[n].name, DaysOf(items[n]).value.value);
    }
  }

  /** So a selection the catalog does not know, held in a period F cell, takes no
      part in the preview: every op is judged as if it were not held. */
  lemma PeriodFTakesNoPart(items: seq<Selection>, i: nat, ops: seq<ResolvedOp>, selected: set<string>,
        vs: seq<OpVerdict>)
    requires i < |items| && items[i].catalogDays.None? && items[i].times.Some? && NamesF(items[i].times.value)
    requires TargetsOf(items).Ok?
    ensures var fewer := TargetsOf(items[..i] + items[i + 1..]);
      fewer.Ok? && (Judged(ops, selected, TargetsOf(items).value, vs) <==> Judged(ops, selected, fewer.value, vs))
  {
    FusedCellsNeverReadF(items[i].times.value);
    UntimedIsInvisible(items, i);
  }
}
