/** `frontend/src/lib/conflicts.ts`: overlap tags, clashes and clashing pairs. */
module Conflicts {
  import opened Wrappers
  import opened Timeslots
  import Timetable

  /** `rest` stands for the fields no clash reads. */
  datatype Course = Course(id: string, classTime: Option<seq<string>>, credit: Option<int>)

  function TimeOf(c: Course): seq<string> {
    c.classTime.GetOr([])
  }

  function SharedCodes(a: string, b: string): string {
    if a == "" then ""
    else SharedCodes(a[..|a| - 1], b) + if a[|a| - 1] in b then [a[|a| - 1]] else ""
  }

  function SharedOn(a: seq<string>, b: seq<string>, day: nat): string {
    SharedCodes(Codes(Slot(a, day)), Codes(Slot(b, day)))
  }

  /** The tags of the first `days` days: weekday label, then the shared codes in
      the order of `a`. */
  function Tags(a: seq<string>, b: seq<string>, days: nat): seq<string>
    requires days <= DAYS
  {
    if days == 0 then []
    else
      var shared := SharedOn(a, b, days - 1);
      Tags(a, b, days - 1) + if shared == "" then [] else [[Timetable.WEEKDAYS[days - 1]] + shared]
  }

  predicate SharesCell(a: seq<string>, b: seq<string>, day: nat, code: char) {
    day < DAYS && code in Slot(a, day) && code in Slot(b, day)
  }

  ghost predicate Clashing(a: seq<string>, b: seq<string>) {
    exists day: nat, code :: SharesCell(a, b, day, code)
  }

  lemma {:induction false} SharedMembers(a: string, b: string)
    ensures forall c :: c in SharedCodes(a, b) <==> c in a && c in b
  {
    if a != "" {
      SharedMembers(a[..|a| - 1], b);
      assert a == a[..|a| - 1] + [a[|a| - 1]];
    }
  }

  lemma SharedOnExactly(a: seq<string>, b: seq<string>, day: nat)
    requires day < DAYS
    ensures forall code :: code in SharedOn(a, b, day) <==> SharesCell(a, b, day, code)
    ensures SharedOn(a, b, day) == "" <==> forall code :: !SharesCell(a, b, day, code)
  {
    CodesMembers(Slot(a, day));
    CodesMembers(Slot(b, day));
    SharedMembers(Codes(Slot(a, day)), Codes(Slot(b, day)));
    if SharedOn(a, b, day) != "" {
      assert SharedOn(a, b, day)[0] in SharedOn(a, b, day);
    }
  }

  lemma {:induction false} NoTagsExactly(a: seq<string>, b: seq<string>, days: nat)
    requires days <= DAYS
    ensures Tags(a, b, days) == [] <==> forall day: nat, code :: day < days ==> !SharesCell(a, b, day, code)
  {
    hide SharedOn, SharesCell;
    if days > 0 {
      NoTagsExactly(a, b, days - 1);
      SharedOnExactly(a, b, days - 1);
    }
  }

  /** A tag is the label of a weekday followed by the codes shared on it. */
  lemma {:induction false} TagMembers(a: seq<string>, b: seq<string>, days: nat, tag: string)
    requires days <= DAYS
    ensures tag in Tags(a, b, days) <==>
      exists day: nat ::
        day < days && SharedOn(a, b, day) != "" && tag == [Timetable.WEEKDAYS[day]] + SharedOn(a, b, day)
  {
    hide SharedOn;
    if days > 0 {
      TagMembers(a, b, days - 1, tag);
    }
  }

  /** There is a tag exactly when the two share a period on some weekday; the
      relation is symmetric and is the server's. */
  lemma TagsExactlyWhenClashing(a: seq<string>, b: seq<string>)
    ensures Tags(a, b, DAYS) != [] <==> Clashing(a, b)
    ensures Clashing(a, b) <==> Clashing(b, a)
  {
    NoTagsExactly(a, b, DAYS);
    if Clashing(a, b) {
      var day: nat, code :| SharesCell(a, b, day, code);
      assert SharesCell(b, a, day, code);
    }
    if Clashing(b, a) {
      var day: nat, code :| SharesCell(b, a, day, code);
      assert SharesCell(a, b, day, code);
    }
  }

  lemma ServerAgreesOn(a: seq<string>, b: seq<string>, day: nat)
    requires ValidTime(a) && ValidTime(b) && day < DAYS
    ensures Timetable.ClashOn(a, b, day) <==> exists code :: SharesCell(a, b, day, code)
  {
    ServerReadsTheSame(Slot(a, day));
    ServerReadsTheSame(Slot(b, day));
    CodesMembers(Slot(a, day));
    CodesMembers(Slot(b, day));
    var both := Timetable.Codes(Slot(a, day)) * Timetable.Codes(Slot(b, day));
    assert forall code :: code in both <==> SharesCell(a, b, day, code);
  }

  lemma ServerAgrees(a: seq<string>, b: seq<string>)
    requires ValidTime(a) && ValidTime(b)
    ensures Clashing(a, b) <==> Timetable.Clash(a, b)
  {
    hide SharesCell, Timetable.ClashOn, ValidTime;
    if Clashing(a, b) {
      var day: nat, code :| SharesCell(a, b, day, code);
      CellInWeek(a, b, day, code);
      ServerAgreesOn(a, b, day);
    }
    if Timetable.Clash(a, b) {
      var day :| 0 <= day < DAYS && Timetable.ClashOn(a, b, day);
      ServerAgreesOn(a, b, day);
    }
  }

  lemma CellInWeek(a: seq<string>, b: seq<string>, day: nat, code: char)
    requires SharesCell(a, b, day, code)
    ensures day < DAYS
  {
  }

  // ---------- the loops ----------

  method FilterShared(a: string, b: string) returns (shared: string)
    ensures shared == SharedCodes(a, b)
  {
    shared := "";
    for i := 0 to |a|
      invariant shared == SharedCodes(a[..i], b)
    {
      assert a[..i + 1][..i] == a[..i];
      if a[i] in b {
        shared := shared + [a[i]];
      }
    }
    assert a[..|a|] == a;
  }

  method OverlapTags(candidate: seq<string>, selected: seq<string>) returns (tags: Result<seq<string>, char>)
    ensures tags.Ok? ==> tags.value == Tags(candidate, selected, DAYS)
    ensures ValidTime(candidate) && ValidTime(selected) ==> tags.Ok?
  {
    var found: seq<string> := [];
    for day := 0 to DAYS
      invariant found == Tags(candidate, selected, day)
    {
      var codesA := ParseDayTimeString(Slot(candidate, day));
      if codesA.Err? {
        return Err(codesA.error);
      }
      if codesA.value == "" {
        continue;
      }
      var codesB := ParseDayTimeString(Slot(selected, day));
      if codesB.Err? {
        return Err(codesB.error);
      }
      var shared := FilterShared(codesA.value, codesB.value);
      if shared != "" {
        found := found + [[Timetable.WEEKDAYS[day]] + shared];
      }
    }
    return Ok(found);
  }

  method AnyShared(a: string, b: string) returns (found: bool)
    ensures found <==> SharedCodes(a, b) != ""
  {
    for i := 0 to |a|
      invariant forall j :: 0 <= j < i ==> a[j] !in b
    {
      if a[i] in b {
        NoSharedExactly(a, b);
        return true;
      }
    }
    NoSharedExactly(a, b);
    return false;
  }

  lemma {:induction false} NoSharedExactly(a: string, b: string)
    ensures SharedCodes(a, b) == "" <==> forall i :: 0 <= i < |a| ==> a[i] !in b
  {
    if a != "" {
      NoSharedExactly(a[..|a| - 1], b);
    }
  }

  method IsConflictDays(a: seq<string>, b: seq<string>) returns (answer: Result<bool, char>)
    ensures answer.Ok? ==> (answer.value <==> Clashing(a, b))
    ensures ValidTime(a) && ValidTime(b) ==> answer.Ok?
  {
    for day := 0 to DAYS
      invariant Tags(a, b, day) == []
    {
      var codesA := ParseDayTimeString(Slot(a, day));
      if codesA.Err? {
        return Err(codesA.error);
      }
      if codesA.value == "" {
        continue;
      }
      var codesB := ParseDayTimeString(Slot(b, day));
      if codesB.Err? {
        return Err(codesB.error);
      }
      var shared := AnyShared(codesA.value, codesB.value);
      if shared {
        SharesSome(a, b, day);
        return Ok(true);
      }
    }
    TagsExactlyWhenClashing(a, b);
    return Ok(false);
  }

  lemma SharesSome(a: seq<string>, b: seq<string>, day: nat)
    requires day < DAYS && SharedOn(a, b, day) != ""
    ensures Clashing(a, b)
  {
    SharedOnExactly(a, b, day);
  }

  datatype Clash = Clash(course: Course, slotTags: seq<string>)

  /** The clashes of a candidate, in selection order, itself left out by id. */
  function Clashes(candidate: Course, selected: seq<Course>): seq<Clash> {
    if selected == [] then []
    else
      var other := selected[|selected| - 1];
      var tags := Tags(TimeOf(candidate), TimeOf(other), DAYS);
      Clashes(candidate, selected[..|selected| - 1])
      + if other.id == candidate.id || tags == [] then [] else [Clash(other, tags)]
  }

  predicate AllValid(courses: seq<Course>) {
    forall i :: 0 <= i < |courses| ==> ValidTime(TimeOf(courses[i]))
  }

  method FindClashes(candidate: Course, selected: seq<Course>) returns (clashes: Result<seq<Clash>, char>)
    ensures clashes.Ok? ==> clashes.value == Clashes(candidate, selected)
    ensures AllValid(selected) && ValidTime(TimeOf(candidate)) ==> clashes.Ok?
  {
    var found: seq<Clash> := [];
    for i := 0 to |selected|
      invariant found == Clashes(candidate, selected[..i])
    {
      assert selected[..i + 1][..i] == selected[..i];
      var other := selected[i];
      if other.id == candidate.id {
        continue;
      }
      var tags := OverlapTags(TimeOf(candidate), TimeOf(other));
      if tags.Err? {
        return Err(tags.error);
      }
      if tags.value != [] {
        found := found + [Clash(other, tags.value)];
      }
    }
    assert selected[..|selected|] == selected;
    return Ok(found);
  }

  /** The clashes are exactly the other selected courses that share a cell with
      the candidate. */
  lemma {:induction false} ClashesExactly(candidate: Course, selected: seq<Course>, other: Course)
    ensures (exists clash :: clash in Clashes(candidate, selected) && clash.course == other)
       <==> other in selected && other.id != candidate.id && Clashing(TimeOf(candidate), TimeOf(other))
  {
    hide Tags, Clashing, TimeOf;
    if selected != [] {
      var n := |selected| - 1;
      assert selected == selected[..n] + [selected[n]];
      ClashesExactly(candidate, selected[..n], other);
      TagsExactlyWhenClashing(TimeOf(candidate), TimeOf(selected[n]));
      var tags := Tags(TimeOf(candidate), TimeOf(selected[n]), DAYS);
      if selected[n].id != candidate.id && tags != [] {
        assert Clash(selected[n], tags) in Clashes(candidate, selected);
      }
    }
  }

  datatype Pair = Pair(a: nat, b: nat, slotTags: seq<string>)

  /** The pairs of row `i` with the rows `i + 1 .. j`. */
  function RowPairs(selected: seq<Course>, i: nat, j: nat): seq<Pair>
    requires i < j <= |selected|
  {
    if j == i + 1 then []
    else
      var tags := Tags(TimeOf(selected[i]), TimeOf(selected[j - 1]), DAYS);
      RowPairs(selected, i, j - 1) + if tags == [] then [] else [Pair(i, j - 1, tags)]
  }

  function Pairs(selected: seq<Course>, rows: nat): seq<Pair>
    requires rows <= |selected|
  {
    if rows == 0 then [] else Pairs(selected, rows - 1) + RowPairs(selected, rows - 1, |selected|)
  }

  method ConflictPairs(selected: seq<Course>) returns (pairs: Result<seq<Pair>, char>)
    ensures pairs.Ok? ==> pairs.value == Pairs(selected, |selected|)
    ensures AllValid(selected) ==> pairs.Ok?
  {
    hide Tags, TimeOf, ValidTime;
    var found: seq<Pair> := [];
    for i := 0 to |selected|
      invariant found == Pairs(selected, i)
    {
      for j := i + 1 to |selected|
        invariant found == Pairs(selected, i) + RowPairs(selected, i, j)
      {
        var tags := OverlapTags(TimeOf(selected[i]), TimeOf(selected[j]));
        if tags.Err? {
          return Err(tags.error);
        }
        if tags.value != [] {
          found := found + [Pair(i, j, tags.value)];
        }
      }
    }
    return Ok(found);
  }

  lemma {:induction false} NoRowPairsExactly(selected: seq<Course>, i: nat, j: nat)
    requires i < j <= |selected|
    ensures RowPairs(selected, i, j) == [] <==> forall k ::
      i < k < j ==> !Clashing(TimeOf(selected[i]), TimeOf(selected[k]))
  {
    hide Tags, Clashing, TimeOf;
    if j > i + 1 {
      NoRowPairsExactly(selected, i, j - 1);
      TagsExactlyWhenClashing(TimeOf(selected[i]), TimeOf(selected[j - 1]));
    }
  }

  predicate IsPair(selected: seq<Course>, p: Pair) {
    && p.a < p.b < |selected|
    && p.slotTags == Tags(TimeOf(selected[p.a]), TimeOf(selected[p.b]), DAYS) && p.slotTags != []
  }

  lemma {:induction false} RowPairsExactly(selected: seq<Course>, i: nat, j: nat, p: Pair)
    requires i < j <= |selected|
    ensures p in RowPairs(selected, i, j) <==> p.a == i && p.b < j && IsPair(selected, p)
  {
    hide Tags, TimeOf;
    if j > i + 1 {
      RowPairsExactly(selected, i, j - 1, p);
    }
  }

  /** The pairs reported are exactly the clashing ones, with their tags. */
  lemma {:induction false} PairsExactly(selected: seq<Course>, rows: nat, p: Pair)
    requires rows <= |selected|
    ensures p in Pairs(selected, rows) <==> p.a < rows && IsPair(selected, p)
  {
    hide IsPair, RowPairs;
    if rows > 0 {
      PairsExactly(selected, rows - 1, p);
      RowPairsExactly(selected, rows - 1, |selected|, p);
      PairInRange(selected, p);
    }
  }

  lemma PairInRange(selected: seq<Course>, p: Pair)
    ensures IsPair(selected, p) ==> p.b < |selected|
  {
  }

  /** No pairs are reported exactly when no two rows of the selection clash. */
  lemma {:induction false} NoPairsExactly(selected: seq<Course>, rows: nat)
    requires rows <= |selected|
    ensures Pairs(selected, rows) == [] <==>
      forall i, k :: 0 <= i < rows && i < k < |selected| ==> !Clashing(TimeOf(selected[i]), TimeOf(selected[k]))
  {
    hide RowPairs, Clashing, TimeOf;
    if rows > 0 {
      NoPairsExactly(selected, rows - 1);
      NoRowPairsExactly(selected, rows - 1, |selected|);
    }
  }
}
