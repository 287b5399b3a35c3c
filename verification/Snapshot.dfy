/** `catalog/persist.py`: in-place replacement of one semester's rows. */
module Snapshot {
  import opened Wrappers

  type Id = nat
  type Text = Option<string>

  /** One scraped row; `rest` stands for the columns no identity reads. */
  datatype Row = Row(yearSem: string, code: Text, dept: Text, nameZh: Text, teacher: Text, room: Text,
      classTime: seq<string>, rest: string)

  /** One table row; only an old one can lack its class time. */
  datatype Course = Course(yearSem: string, code: Text, dept: Text, nameZh: Text, teacher: Text, room: Text,
      classTime: Option<seq<string>>, rest: string)

  type Table = map<Id, Course>

  datatype Identity =
    | Coded(code: string)
    | Fallback(yearSem: string, dept: Text, nameZh: Text, teacher: Text, room: Text, classTime: seq<string>)

  datatype PersistOutcome = PersistOutcome(stored: nat, updated: nat, inserted: nat, deleted: nat, dedup: nat)

  function RowIdentity(r: Row): Identity {
    if r.code.Some? then Coded(r.code.value) else Fallback(r.yearSem, r.dept, r.nameZh, r.teacher, r.room, r.classTime)
  }

  function CourseIdentity(c: Course): Identity {
    if c.code.Some? then Coded(c.code.value)
    else Fallback(c.yearSem, c.dept, c.nameZh, c.teacher, c.room, if c.classTime.Some? then c.classTime.value else [])
  }

  /** The columns of a stored row are those of a scraped row. */
  predicate Copies(c: Course, r: Row) {
    && c.yearSem == r.yearSem && c.code == r.code && c.dept == r.dept && c.nameZh == r.nameZh
    && c.teacher == r.teacher && c.room == r.room && c.classTime == Some(r.classTime) && c.rest == r.rest
  }

  function Stored(r: Row): (c: Course)
    ensures Copies(c, r)
  {
    Course(r.yearSem, r.code, r.dept, r.nameZh, r.teacher, r.room, Some(r.classTime), r.rest)
  }

  // ---------- what the scrape asks for ----------

  function Identities(rows: seq<Row>): set<Identity> {
    set r | r in rows :: RowIdentity(r)
  }

  function First(rows: seq<Row>, ident: Identity): (r: Row)
    requires ident in Identities(rows)
    ensures r in rows && RowIdentity(r) == ident
  {
    if RowIdentity(rows[0]) == ident then rows[0]
    else
      assert rows == [rows[0]] + rows[1..];
      First(rows[1..], ident)
  }

  /** The identities not in `known`, in order of first appearance. */
  function Added(rows: seq<Row>, known: set<Identity>): seq<Identity> {
    if rows == [] then []
    else
      var front, ident := rows[..|rows| - 1], RowIdentity(rows[|rows| - 1]);
      Added(front, known) + if ident in Identities(front) || ident in known then [] else [ident]
  }

  /** The dictionary over the existing rows: the last one listed wins. */
  function Index(table: Table, listing: seq<Id>): map<Identity, Id>
    requires forall id :: id in listing ==> id in table
  {
    if listing == [] then map[]
    else
      var last := listing[|listing| - 1];
      Index(table, listing[..|listing| - 1])[CourseIdentity(table[last]) := last]
  }

  predicate InSemester(table: Table, yearSem: string, id: Id) {
    id in table && table[id].yearSem == yearSem
  }

  /** `SELECT … WHERE year_sem = …`: every row of the semester once, any order. */
  ghost predicate Lists(listing: seq<Id>, table: Table, yearSem: string) {
    && (forall id :: id in listing <==> InSemester(table, yearSem, id))
    && (forall i, j :: 0 <= i < j < |listing| ==> listing[i] != listing[j])
  }

  ghost predicate Scrape(rows: seq<Row>, yearSem: string) {
    forall r :: r in rows ==> r.yearSem == yearSem
  }

  /** What an existing row becomes. */
  function Renewed(table: Table, yearSem: string, rows: seq<Row>, index: map<Identity, Id>, id: Id): Course
    requires id in table
  {
    var ident := CourseIdentity(table[id]);
    if InSemester(table, yearSem, id) && ident in Identities(rows) && ident in index && index[ident] == id
    then Stored(First(rows, ident)) else table[id]
  }

  predicate Survives(table: Table, yearSem: string, rows: seq<Row>, id: Id)
    requires id in table
  {
    table[id].yearSem != yearSem || CourseIdentity(table[id]) in Identities(rows)
  }

  ghost predicate Fresh(table: Table, next: Id) {
    forall id :: id in table ==> id < next
  }

  /** The table after the replacement, row by row. */
  ghost predicate IsSnapshot(table: Table, next: Id, yearSem: string, rows: seq<Row>, listing: seq<Id>, after: Table)
    requires Lists(listing, table, yearSem) && Fresh(table, next)
  {
    var index := Index(table, listing);
    var added := Added(rows, index.Keys);
    && (forall id :: id in table ==> (id in after <==> Survives(table, yearSem, rows, id)))
    && (forall id :: id in table && id in after ==> after[id] == Renewed(table, yearSem, rows, index, id))
    && (forall id :: id !in table ==> (id in after <==> next <= id < next + |added|))
    && (forall k ::
          0 <= k < |added| ==>
            next + k in after && added[k] in Identities(rows) && after[next + k] == Stored(First(rows, added[k])))
  }

  // ---------- small facts ----------

  lemma IdentitiesSnoc(rows: seq<Row>, i: nat)
    requires i < |rows|
    ensures Identities(rows[..i + 1]) == Identities(rows[..i]) + {RowIdentity(rows[i])}
    ensures Identities(rows[..i + 1]) <= Identities(rows)
  {
    assert rows[..i + 1] == rows[..i] + [rows[i]];
    assert forall r :: r in rows[..i + 1] ==> r in rows;
  }

  lemma {:induction false} FirstAt(rows: seq<Row>, i: nat)
    requires i < |rows| && RowIdentity(rows[i]) !in Identities(rows[..i])
    ensures RowIdentity(rows[i]) in Identities(rows) && First(rows, RowIdentity(rows[i])) == rows[i]
  {
    assert rows[i] in rows;
    if i > 0 {
      assert rows[0] in rows[..i];
      assert rows[1..][..i - 1] == rows[1..i];
      assert forall r :: r in rows[1..i] ==> r in rows[..i];
      FirstAt(rows[1..], i - 1);
    }
  }

  lemma {:induction false} AddedMembers(rows: seq<Row>, known: set<Identity>)
    ensures forall ident :: ident in Added(rows, known) <==> ident in Identities(rows) && ident !in known
    ensures forall i, j :: 0 <= i < j < |Added(rows, known)| ==> Added(rows, known)[i] != Added(rows, known)[j]
  {
    if rows != [] {
      var n := |rows| - 1;
      AddedMembers(rows[..n], known);
      IdentitiesSnoc(rows, n);
      assert rows[..n + 1] == rows;
    }
  }

  lemma {:induction false} IndexMembers(table: Table, listing: seq<Id>)
    requires forall id :: id in listing ==> id in table
    ensures forall ident :: ident in Index(table, listing) <==> exists id ::
      id in listing && CourseIdentity(table[id]) == ident
    ensures forall ident :: ident in Index(table, listing) ==>
      Index(table, listing)[ident] in listing && CourseIdentity(table[Index(table, listing)[ident]]) == ident
  {
    if listing != [] {
      var n := |listing| - 1;
      assert listing == listing[..n] + [listing[n]];
      IndexMembers(table, listing[..n]);
    }
  }

  lemma IndexSnoc(table: Table, listing: seq<Id>, i: nat)
    requires i < |listing| && forall id :: id in listing ==> id in table
    ensures Index(table, listing[..i + 1]) ==
      Index(table, listing[..i])[CourseIdentity(table[listing[i]]) := listing[i]]
  {
    assert listing[..i + 1][..i] == listing[..i];
  }

  lemma AddedSnoc(rows: seq<Row>, known: set<Identity>, i: nat)
    requires i < |rows|
    ensures Added(rows[..i + 1], known) == Added(rows[..i], known)
      + if RowIdentity(rows[i]) in Identities(rows[..i]) || RowIdentity(rows[i]) in known then []
        else [RowIdentity(rows[i])]
  {
    assert rows[..i + 1][..i] == rows[..i];
  }

  lemma {:induction false} FirstOfFront(front: seq<Row>, back: seq<Row>, ident: Identity)
    requires ident in Identities(front)
    ensures ident in Identities(front + back) && First(front + back, ident) == First(front, ident)
  {
    assert forall r :: r in front ==> r in front + back;
    if RowIdentity(front[0]) != ident {
      assert front == [front[0]] + front[1..];
      FirstOfFront(front[1..], back, ident);
      assert (front + back)[1..] == front[1..] + back;
    }
  }

  lemma FirstSnoc(rows: seq<Row>, i: nat, ident: Identity)
    requires i < |rows| && ident in Identities(rows[..i])
    ensures ident in Identities(rows[..i + 1]) && First(rows[..i + 1], ident) == First(rows[..i], ident)
  {
    FirstOfFront(rows[..i], [rows[i]], ident);
    assert rows[..i + 1] == rows[..i] + [rows[i]];
  }

  // ---------- the replacement ----------

  /** The table after the upserts of `rows`, before anything is deleted. */
  ghost predicate Upserted(table: Table, next: Id, yearSem: string, rows: seq<Row>, index: map<Identity, Id>,
        after: Table)
  {
    var added := Added(rows, index.Keys);
    && (forall id :: id in table ==> id in after && after[id] == Renewed(table, yearSem, rows, index, id))
    && (forall id :: id !in table ==> (id in after <==> next <= id < next + |added|))
    && (forall k ::
          0 <= k < |added| ==>
            next + k in after && added[k] in Identities(rows) && after[next + k] == Stored(First(rows, added[k])))
  }

  /** What is not as it was copies a scraped row. */
  ghost predicate ChangedCopies(table: Table, rows: seq<Row>, after: Table) {
    forall id :: id in after && (id in table ==> after[id] != table[id]) ==>
      exists r :: r in rows && Copies(after[id], r)
  }

  lemma UpsertedCopies(table: Table, next: Id, yearSem: string, rows: seq<Row>, index: map<Identity, Id>, after: Table)
    requires Upserted(table, next, yearSem, rows, index, after)
    ensures ChangedCopies(table, rows, after)
  {
    hide Copies, CourseIdentity, RowIdentity;
    var added := Added(rows, index.Keys);
    forall id | id in after && (id in table ==> after[id] != table[id])
      ensures exists r :: r in rows && Copies(after[id], r)
    {
      var ident := if id in table then CourseIdentity(table[id]) else added[id - next];
      assert id !in table ==> after[next + (id - next)] == Stored(First(rows, ident));
      assert after[id] == Stored(First(rows, ident));
    }
  }

  lemma FewerStillCopies(table: Table, rows: seq<Row>, after: Table, gone: set<Id>)
    requires ChangedCopies(table, rows, after)
    ensures ChangedCopies(table, rows, after - gone)
  {
  }

  lemma RenewedSnoc(table: Table, yearSem: string, rows: seq<Row>, index: map<Identity, Id>, i: nat, id: Id)
    requires i < |rows| && id in table
    ensures Renewed(table, yearSem, rows[..i + 1], index, id) ==
      if RowIdentity(rows[i]) !in Identities(rows[..i]) && RowIdentity(rows[i]) == CourseIdentity(table[id])
        && InSemester(table, yearSem, id) && CourseIdentity(table[id]) in index
          && index[CourseIdentity(table[id])] == id
      then Stored(rows[i]) else Renewed(table, yearSem, rows[..i], index, id)
  {
    var ident := CourseIdentity(table[id]);
    IdentitiesSnoc(rows, i);
    if ident in Identities(rows[..i]) {
      FirstSnoc(rows, i, ident);
    } else if ident == RowIdentity(rows[i]) {
      assert rows[..i + 1][..i] == rows[..i];
      FirstAt(rows[..i + 1], i);
    }
  }

  ghost predicate GoodIndex(table: Table, yearSem: string, index: map<Identity, Id>) {
    forall ident ::
      ident in index ==> InSemester(table, yearSem, index[ident]) && CourseIdentity(table[index[ident]]) == ident
  }

  /** A row whose identity was seen changes nothing. */
  lemma SkipRow(table: Table, next: Id, yearSem: string, rows: seq<Row>, index: map<Identity, Id>, i: nat, after: Table)
    requires i < |rows| && Upserted(table, next, yearSem, rows[..i], index, after)
    requires RowIdentity(rows[i]) in Identities(rows[..i])
    ensures Upserted(table, next, yearSem, rows[..i + 1], index, after)
  {
    forall id | id in table ensures after[id] == Renewed(table, yearSem, rows[..i + 1], index, id) {
      RenewedSnoc(table, yearSem, rows, index, i, id);
    }
    AddedSame(table, next, rows, index, i, after);
  }

  lemma AddedSame(table: Table, next: Id, rows: seq<Row>, index: map<Identity, Id>, i: nat, after: Table)
    requires i < |rows| && (RowIdentity(rows[i]) in Identities(rows[..i]) || RowIdentity(rows[i]) in index)
    requires var added := Added(rows[..i], index.Keys);
      forall k ::
        0 <= k < |added| ==>
          next + k in after && added[k] in Identities(rows[..i])
            && after[next + k] == Stored(First(rows[..i], added[k]))
    ensures var added := Added(rows[..i + 1], index.Keys);
      && added == Added(rows[..i], index.Keys)
      && forall k ::
        0 <= k < |added| ==>
          added[k] in Identities(rows[..i + 1]) && after[next + k] == Stored(First(rows[..i + 1], added[k]))
  {
    AddedSnoc(rows, index.Keys, i);
    var added := Added(rows[..i], index.Keys);
    forall k | 0 <= k < |added|
      ensures added[k] in Identities(rows[..i + 1]) && after[next + k] == Stored(First(rows[..i + 1], added[k]))
    {
      FirstSnoc(rows, i, added[k]);
    }
  }

  lemma UpdateRow(table: Table, next: Id, yearSem: string, rows: seq<Row>, index: map<Identity, Id>, i: nat,
        after: Table)
    requires i < |rows| && Fresh(table, next) && Upserted(table, next, yearSem, rows[..i], index, after)
      && GoodIndex(table, yearSem, index)
    requires RowIdentity(rows[i]) !in Identities(rows[..i]) && RowIdentity(rows[i]) in index
    ensures Upserted(table, next, yearSem, rows[..i + 1], index, after[index[RowIdentity(rows[i])] := Stored(rows[i])])
  {
    hide Renewed, Added, First, Identities, RowIdentity, Stored;
    var target := index[RowIdentity(rows[i])];
    var later := after[target := Stored(rows[i])];
    forall id | id in table ensures later[id] == Renewed(table, yearSem, rows[..i + 1], index, id) {
      RenewedSnoc(table, yearSem, rows, index, i, id);
    }
    AddedSame(table, next, rows, index, i, later);
  }

  /** A new identity that no existing row has: every existing row stays. */
  lemma RenewedSame(table: Table, yearSem: string, rows: seq<Row>, index: map<Identity, Id>, i: nat)
    requires i < |rows| && RowIdentity(rows[i]) !in index
    ensures forall id ::
      id in table ==> Renewed(table, yearSem, rows[..i + 1], index, id) == Renewed(table, yearSem, rows[..i], index, id)
  {
    forall id | id in table
      ensures Renewed(table, yearSem, rows[..i + 1], index, id) == Renewed(table, yearSem, rows[..i], index, id)
    {
      RenewedSnoc(table, yearSem, rows, index, i, id);
    }
  }

  lemma AddedMore(rows: seq<Row>, known: set<Identity>, i: nat, k: nat)
    requires i < |rows| && RowIdentity(rows[i]) !in Identities(rows[..i]) && RowIdentity(rows[i]) !in known
    requires k < |Added(rows[..i + 1], known)|
    requires k < |Added(rows[..i], known)| ==> Added(rows[..i], known)[k] in Identities(rows[..i])
    ensures |Added(rows[..i + 1], known)| == |Added(rows[..i], known)| + 1
    ensures var ident := Added(rows[..i + 1], known)[k];
      && ident in Identities(rows[..i + 1])
      && (k < |Added(rows[..i], known)| ==>
            ident == Added(rows[..i], known)[k] && First(rows[..i + 1], ident) == First(rows[..i], ident))
      && (k == |Added(rows[..i], known)| ==> First(rows[..i + 1], ident) == rows[i])
  {
    AddedSnoc(rows, known, i);
    if k < |Added(rows[..i], known)| {
      FirstSnoc(rows, i, Added(rows[..i], known)[k]);
    } else {
      IdentitiesSnoc(rows, i);
      assert rows[..i + 1][..i] == rows[..i];
      FirstAt(rows[..i + 1], i);
    }
  }

  lemma InsertRow(table: Table, next: Id, yearSem: string, rows: seq<Row>, index: map<Identity, Id>, i: nat,
        after: Table)
    requires i < |rows| && Fresh(table, next) && Upserted(table, next, yearSem, rows[..i], index, after)
    requires RowIdentity(rows[i]) !in Identities(rows[..i]) && RowIdentity(rows[i]) !in index
    ensures Upserted(table, next, yearSem, rows[..i + 1], index,
      after[next + |Added(rows[..i], index.Keys)| := Stored(rows[i])])
  {
    hide Renewed, Added, Identities, First, RowIdentity, Stored;
    var added, more := Added(rows[..i], index.Keys), Added(rows[..i + 1], index.Keys);
    RenewedSame(table, yearSem, rows, index, i);
    AddedSnoc(rows, index.Keys, i);
    var later := after[next + |added| := Stored(rows[i])];
    forall k | 0 <= k < |more|
      ensures more[k] in Identities(rows[..i + 1]) && later[next + k] == Stored(First(rows[..i + 1], more[k]))
    {
      AddedMore(rows, index.Keys, i, k);
    }
  }

  /** The table after the first `i` rows of the scrape. */
  ghost predicate Tabled(table: Table, next: Id, yearSem: string, rows: seq<Row>, index: map<Identity, Id>, i: int,
        after: Table, nextNow: Id)
  {
    && 0 <= i <= |rows|
    && Upserted(table, next, yearSem, rows[..i], index, after)
    && nextNow == next + |Added(rows[..i], index.Keys)| && Fresh(after, nextNow)
  }

  /** Every scraped row is an update, an insert or a duplicate. */
  ghost predicate Tally(rows: seq<Row>, known: set<Identity>, updated: nat, inserted: nat, dedup: nat) {
    && updated == |Identities(rows) * known| && inserted == |Identities(rows) - known|
    && updated + inserted + dedup == |rows|
  }

  /** The counters after the first `i` rows. */
  ghost predicate Counted(rows: seq<Row>, known: set<Identity>, i: int, seen: set<Identity>, updated: nat,
        inserted: nat, dedup: nat)
  {
    && 0 <= i <= |rows| && seen == Identities(rows[..i])
    && updated == |seen * known| && inserted == |seen - known| && dedup == i - |seen|
  }

  lemma LoopStarts(table: Table, next: Id, yearSem: string, rows: seq<Row>, index: map<Identity, Id>)
    requires Fresh(table, next)
    ensures Midway(table, next, yearSem, rows, index, 0, table, next, {}, 0, 0, 0)
  {
    assert rows[..0] == [];
  }

  lemma LoopEnds(table: Table, next: Id, yearSem: string, rows: seq<Row>, index: map<Identity, Id>, after: Table,
        nextNow: Id, seen: set<Identity>, updated: nat, inserted: nat, dedup: nat)
    requires Midway(table, next, yearSem, rows, index, |rows|, after, nextNow, seen, updated, inserted, dedup)
    ensures Upserted(table, next, yearSem, rows, index, after) && Fresh(after, nextNow)
    ensures seen == Identities(rows) && Tally(rows, index.Keys, updated, inserted, dedup)
  {
    assert rows[..|rows|] == rows;
    assert seen == seen * index.Keys + (seen - index.Keys);
  }

  lemma CountKnown(seen: set<Identity>, known: set<Identity>, ident: Identity)
    requires ident !in seen
    ensures |seen + {ident}| == |seen| + 1
    ensures ident in known ==>
      |(seen + {ident}) * known| == |seen * known| + 1 && (seen + {ident}) - known == seen - known
    ensures ident !in known ==>
      (seen + {ident}) * known == seen * known && |(seen + {ident}) - known| == |seen - known| + 1
  {
    if ident in known {
      assert (seen + {ident}) * known == seen * known + {ident};
      assert (seen + {ident}) - known == seen - known;
    } else {
      assert (seen + {ident}) * known == seen * known;
      assert (seen + {ident}) - known == (seen - known) + {ident};
    }
  }

  lemma CountedNext(rows: seq<Row>, known: set<Identity>, i: int, seen: set<Identity>, updated: nat, inserted: nat,
        dedup: nat)
    requires i < |rows| && Counted(rows, known, i, seen, updated, inserted, dedup)
    ensures RowIdentity(rows[i]) in seen ==> Counted(rows, known, i + 1, seen, updated, inserted, dedup + 1)
    ensures RowIdentity(rows[i]) !in seen && RowIdentity(rows[i]) in known ==>
      Counted(rows, known, i + 1, seen + {RowIdentity(rows[i])}, updated + 1, inserted, dedup)
    ensures RowIdentity(rows[i]) !in seen && RowIdentity(rows[i]) !in known ==>
      Counted(rows, known, i + 1, seen + {RowIdentity(rows[i])}, updated, inserted + 1, dedup)
  {
    hide Identities, RowIdentity;
    IdentitiesSnoc(rows, i);
    if RowIdentity(rows[i]) in seen {
      assert seen + {RowIdentity(rows[i])} == seen;
    } else {
      CountKnown(seen, known, RowIdentity(rows[i]));
    }
  }

  lemma SeenSoFar(rows: seq<Row>, known: set<Identity>, i: int, seen: set<Identity>, updated: nat, inserted: nat,
        dedup: nat)
    requires Counted(rows, known, i, seen, updated, inserted, dedup)
    ensures seen == Identities(rows[..i])
  {
  }

  lemma TargetThere(table: Table, next: Id, yearSem: string, rows: seq<Row>, index: map<Identity, Id>, after: Table)
    requires Upserted(table, next, yearSem, rows, index, after) && GoodIndex(table, yearSem, index)
    ensures forall ident :: ident in index ==> index[ident] in after
  {
  }

  lemma TabledNext(table: Table, next: Id, yearSem: string, rows: seq<Row>, index: map<Identity, Id>, i: int,
        after: Table, nextNow: Id)
    requires Fresh(table, next) && GoodIndex(table, yearSem, index)
    requires i < |rows| && Tabled(table, next, yearSem, rows, index, i, after, nextNow)
    ensures var ident := RowIdentity(rows[i]);
      if ident in Identities(rows[..i]) then Tabled(table, next, yearSem, rows, index, i + 1, after, nextNow)
      else if ident in index then
        Tabled(table, next, yearSem, rows, index, i + 1, after[index[ident] := Stored(rows[i])], nextNow)
      else Tabled(table, next, yearSem, rows, index, i + 1, after[nextNow := Stored(rows[i])], nextNow + 1)
  {
    hide Upserted, Added, RowIdentity, Identities, Stored, GoodIndex;
    var ident := RowIdentity(rows[i]);
    TargetThere(table, next, yearSem, rows[..i], index, after);
    AddedSnoc(rows, index.Keys, i);
    if ident in Identities(rows[..i]) {
      SkipRow(table, next, yearSem, rows, index, i, after);
    } else if ident in index {
      UpdateRow(table, next, yearSem, rows, index, i, after);
    } else {
      InsertRow(table, next, yearSem, rows, index, i, after);
    }
  }

  /** Both, after one more row. */
  ghost predicate Midway(table: Table, next: Id, yearSem: string, rows: seq<Row>, index: map<Identity, Id>, i: int,
        after: Table, nextNow: Id, seen: set<Identity>, updated: nat, inserted: nat, dedup: nat)
  {
    Tabled(table, next, yearSem, rows, index, i, after, nextNow)
      && Counted(rows, index.Keys, i, seen, updated, inserted, dedup)
  }

  lemma Next(table: Table, next: Id, yearSem: string, rows: seq<Row>, index: map<Identity, Id>, i: int, after: Table,
        nextNow: Id, seen: set<Identity>, updated: nat, inserted: nat, dedup: nat, ident: Identity, stored: Course)
    requires Fresh(table, next) && GoodIndex(table, yearSem, index)
    requires i < |rows| && Midway(table, next, yearSem, rows, index, i, after, nextNow, seen, updated, inserted, dedup)
    requires ident == RowIdentity(rows[i]) && stored == Stored(rows[i])
    ensures ident in seen ==>
      Midway(table, next, yearSem, rows, index, i + 1, after, nextNow, seen, updated, inserted, dedup + 1)
    ensures ident !in seen && ident in index ==>
      Midway(table, next, yearSem, rows, index, i + 1, after[index[ident] := stored], nextNow, seen + {ident},
             updated + 1, inserted, dedup)
    ensures ident !in seen && ident !in index ==>
      Midway(table, next, yearSem, rows, index, i + 1, after[nextNow := stored], nextNow + 1, seen + {ident},
             updated, inserted + 1, dedup)
  {
    hide Tabled, Counted, Identities, RowIdentity, Stored;
    TabledNext(table, next, yearSem, rows, index, i, after, nextNow);
    CountedNext(rows, index.Keys, i, seen, updated, inserted, dedup);
    SeenSoFar(rows, index.Keys, i, seen, updated, inserted, dedup);
  }

  /** The existing rows whose identity the scrape does not name. */
  ghost function Vanished(table: Table, listing: seq<Id>, seen: set<Identity>): set<Id>
    requires forall id :: id in listing ==> id in table
  {
    set id | id in listing && CourseIdentity(table[id]) !in seen
  }

  class Catalog {
    var courses: Table
    var next: Id

    constructor ()
      ensures courses == map[] && Valid()
    {
      courses, next := map[], 0;
    }

    ghost predicate Valid()
      reads this
    {
      Fresh(courses, next)
    }

    method BuildIndex(listing: seq<Id>) returns (index: map<Identity, Id>)
      requires forall id :: id in listing ==> id in courses
      ensures index == Index(courses, listing)
    {
      index := map[];
      for i := 0 to |listing|
        invariant index == Index(courses, listing[..i])
      {
        IndexSnoc(courses, listing, i);
        index := index[CourseIdentity(courses[listing[i]]) := listing[i]];
      }
      assert listing[..|listing|] == listing;
    }

    method UpsertRows(yearSem: string, rows: seq<Row>, index: map<Identity, Id>)
      returns (seen: set<Identity>, updated: nat, inserted: nat, dedup: nat)
      requires Valid() && GoodIndex(courses, yearSem, index)
      modifies this
      ensures Valid() && seen == Identities(rows)
      ensures Upserted(old(courses), old(next), yearSem, rows, index, courses)
      ensures ChangedCopies(old(courses), rows, courses)
      ensures Tally(rows, index.Keys, updated, inserted, dedup)
    {
      hide Midway, GoodIndex, Fresh, RowIdentity, Stored, Copies, Identities, Upserted, ChangedCopies, Tally;
      ghost var table, start := courses, next;
      seen, updated, inserted, dedup := {}, 0, 0, 0;
      LoopStarts(courses, next, yearSem, rows, index);
      for i := 0 to |rows|
        invariant Midway(table, start, yearSem, rows, index, i, courses, next, seen, updated, inserted, dedup)
      {
        var ident := RowIdentity(rows[i]);
        var stored := Stored(rows[i]);
        Next(table, start, yearSem, rows, index, i, courses, next, seen, updated, inserted, dedup, ident, stored);
        if ident in seen {
          dedup := dedup + 1;
          continue;
        }
        seen := seen + {ident};
        if ident in index {
          courses := courses[index[ident] := stored];
          updated := updated + 1;
        } else {
          courses, next := courses[next := stored], next + 1;
          inserted := inserted + 1;
        }
      }
      LoopEnds(table, start, yearSem, rows, index, courses, next, seen, updated, inserted, dedup);
      UpsertedCopies(table, start, yearSem, rows, index, courses);
    }

    method DeleteVanished(listing: seq<Id>, seen: set<Identity>) returns (deleted: nat)
      requires Valid() && forall id :: id in listing ==> id in courses
      requires forall i, j :: 0 <= i < j < |listing| ==> listing[i] != listing[j]
      modifies this`courses
      ensures Valid()
      ensures courses == old(courses) - Vanished(old(courses), listing, seen)
        && deleted == |Vanished(old(courses), listing, seen)|
    {
      ghost var table := courses;
      ghost var gone: set<Id> := {};
      deleted := 0;
      for i := 0 to |listing|
        invariant gone == set id | id in listing[..i] && CourseIdentity(table[id]) !in seen
        invariant courses == table - gone && deleted == |gone|
      {
        var id := listing[i];
        assert listing[..i + 1] == listing[..i] + [id];
        assert id !in gone;
        if CourseIdentity(courses[id]) in seen {
          continue;
        }
        courses := courses - {id};
        gone := gone + {id};
        deleted := deleted + 1;
      }
      assert listing[..|listing|] == listing;
    }

    /** `listing` is the answer of the SELECT; its order is the database's. */
    method ReplaceYearSemSnapshot(yearSem: string, rows: seq<Row>, listing: seq<Id>) returns (outcome: PersistOutcome)
      requires Valid() && Lists(listing, courses, yearSem)
      modifies this
      ensures Valid()
      ensures IsSnapshot(old(courses), old(next), yearSem, rows, listing, courses)
      ensures Tally(rows, Index(old(courses), listing).Keys, outcome.updated, outcome.inserted, outcome.dedup)
      ensures ChangedCopies(old(courses), rows, courses)
      ensures outcome.deleted == |Vanished(old(courses), listing, Identities(rows))|
      ensures outcome.stored == outcome.updated + outcome.inserted
    {
      hide GoodIndex, IsSnapshot, Upserted, Added, Identities, Renewed, Index, CourseIdentity, Vanished, Fresh,
        ChangedCopies, Tally;
      ghost var table, start := courses, next;
      var index := BuildIndex(listing);
      IndexIsGood(courses, yearSem, listing);
      var seen, updated, inserted, dedup := UpsertRows(yearSem, rows, index);
      DeletedExactly(table, start, yearSem, rows, listing, courses);
      FewerStillCopies(table, rows, courses, Vanished(courses, listing, seen));
      var deleted := DeleteVanished(listing, seen);
      outcome := PersistOutcome(updated + inserted, updated, inserted, deleted, dedup);
    }
  }

  lemma RenewedKeepsIdentity(table: Table, yearSem: string, rows: seq<Row>, index: map<Identity, Id>, id: Id)
    requires id in table
    ensures CourseIdentity(Renewed(table, yearSem, rows, index, id)) == CourseIdentity(table[id])
    ensures Scrape(rows, yearSem) ==> Renewed(table, yearSem, rows, index, id).yearSem == table[id].yearSem
  {
  }

  lemma IndexIsGood(table: Table, yearSem: string, listing: seq<Id>)
    requires Lists(listing, table, yearSem)
    ensures GoodIndex(table, yearSem, Index(table, listing))
  {
    IndexMembers(table, listing);
  }

  lemma DeletedExactly(table: Table, next: Id, yearSem: string, rows: seq<Row>, listing: seq<Id>, upserted: Table)
    requires Lists(listing, table, yearSem) && Fresh(table, next)
    requires Upserted(table, next, yearSem, rows, Index(table, listing), upserted)
    ensures forall id :: id in listing ==> id in upserted && CourseIdentity(upserted[id]) == CourseIdentity(table[id])
    ensures Vanished(upserted, listing, Identities(rows)) == Vanished(table, listing, Identities(rows))
    ensures IsSnapshot(table, next, yearSem, rows, listing, upserted - Vanished(table, listing, Identities(rows)))
  {
    forall id | id in listing ensures id in upserted && CourseIdentity(upserted[id]) == CourseIdentity(table[id]) {
      RenewedKeepsIdentity(table, yearSem, rows, Index(table, listing), id);
    }
  }

  // ---------- what a replacement means ----------

  /** No two rows of the semester carry one identity. */
  ghost predicate Distinct(table: Table, yearSem: string) {
    forall id, jd :: InSemester(table, yearSem, id) && InSemester(table, yearSem, jd) && id != jd ==>
      CourseIdentity(table[id]) != CourseIdentity(table[jd])
  }

  ghost predicate Names(table: Table, yearSem: string, ident: Identity) {
    exists id :: InSemester(table, yearSem, id) && CourseIdentity(table[id]) == ident
  }

  /** A new row carries a scraped identity that no existing row has. */
  lemma NewRow(table: Table, next: Id, yearSem: string, rows: seq<Row>, listing: seq<Id>, after: Table, id: Id)
    returns (k: nat)
    requires Lists(listing, table, yearSem) && Fresh(table, next) && Scrape(rows, yearSem)
    requires IsSnapshot(table, next, yearSem, rows, listing, after) && id in after && id !in table
    ensures k < |Added(rows, Index(table, listing).Keys)| && id == next + k
    ensures var ident := Added(rows, Index(table, listing).Keys)[k];
      && CourseIdentity(after[id]) == ident && ident in Identities(rows) && !Names(table, yearSem, ident)
      && after[id] == Stored(First(rows, ident)) && after[id].yearSem == yearSem
  {
    var added := Added(rows, Index(table, listing).Keys);
    k := id - next;
    AddedMembers(rows, Index(table, listing).Keys);
    IndexMembers(table, listing);
    assert added[k] in added;
  }

  /** An old row keeps its id and identity and survives exactly when scraped. */
  lemma OldRow(table: Table, next: Id, yearSem: string, rows: seq<Row>, listing: seq<Id>, after: Table, id: Id)
    requires Lists(listing, table, yearSem) && Fresh(table, next) && Scrape(rows, yearSem)
    requires IsSnapshot(table, next, yearSem, rows, listing, after) && id in table
    ensures InSemester(table, yearSem, id) ==> (id in after <==> CourseIdentity(table[id]) in Identities(rows))
    ensures id in after ==>
      CourseIdentity(after[id]) == CourseIdentity(table[id]) && after[id].yearSem == table[id].yearSem
    ensures !InSemester(table, yearSem, id) ==> id in after && after[id] == table[id]
  {
    RenewedKeepsIdentity(table, yearSem, rows, Index(table, listing), id);
  }

  lemma NewIdentityIsAdded(table: Table, next: Id, yearSem: string, rows: seq<Row>, listing: seq<Id>, after: Table,
        ident: Identity)
    requires Lists(listing, table, yearSem) && Fresh(table, next) && Scrape(rows, yearSem)
    requires IsSnapshot(table, next, yearSem, rows, listing, after)
    requires ident in Identities(rows) && !Names(table, yearSem, ident)
    ensures Names(after, yearSem, ident)
  {
    AddedMembers(rows, Index(table, listing).Keys);
    IndexMembers(table, listing);
    var added := Added(rows, Index(table, listing).Keys);
    assert ident in added;
    var k :| 0 <= k < |added| && added[k] == ident;
    var j := NewRow(table, next, yearSem, rows, listing, after, next + k);
    assert InSemester(after, yearSem, next + k);
  }

  /** Afterwards the semester names exactly the scraped identities. */
  lemma NamesExactlyTheScrape(table: Table, next: Id, yearSem: string, rows: seq<Row>, listing: seq<Id>, after: Table,
        ident: Identity)
    requires Lists(listing, table, yearSem) && Fresh(table, next) && Scrape(rows, yearSem)
    requires IsSnapshot(table, next, yearSem, rows, listing, after)
    ensures Names(after, yearSem, ident) <==> ident in Identities(rows)
  {
    if Names(after, yearSem, ident) {
      var id :| InSemester(after, yearSem, id) && CourseIdentity(after[id]) == ident;
      if id in table {
        OldRow(table, next, yearSem, rows, listing, after, id);
      } else {
        var k := NewRow(table, next, yearSem, rows, listing, after, id);
      }
    }
    if ident in Identities(rows) {
      if Names(table, yearSem, ident) {
        var id :| InSemester(table, yearSem, id) && CourseIdentity(table[id]) == ident;
        OldRow(table, next, yearSem, rows, listing, after, id);
        assert InSemester(after, yearSem, id);
      } else {
        NewIdentityIsAdded(table, next, yearSem, rows, listing, after, ident);
      }
    }
  }

  /** Rows of one identity after the replacement were rows of one identity
      before it. */
  lemma SharedBefore(table: Table, next: Id, yearSem: string, rows: seq<Row>, listing: seq<Id>, after: Table, id: Id,
        jd: Id)
    requires Lists(listing, table, yearSem) && Fresh(table, next) && Scrape(rows, yearSem)
    requires IsSnapshot(table, next, yearSem, rows, listing, after)
    requires InSemester(after, yearSem, id) && InSemester(after, yearSem, jd) && id != jd
    requires CourseIdentity(after[id]) == CourseIdentity(after[jd])
    ensures InSemester(table, yearSem, id) && InSemester(table, yearSem, jd)
    ensures CourseIdentity(table[id]) == CourseIdentity(table[jd]) && CourseIdentity(table[id]) in Identities(rows)
  {
    if id in table {
      OldRow(table, next, yearSem, rows, listing, after, id);
    }
    if jd in table {
      OldRow(table, next, yearSem, rows, listing, after, jd);
    }
    if id !in table || jd !in table {
      NewIsAlone(table, next, yearSem, rows, listing, after,
                 if id in table then jd else id, if id in table then id else jd);
    }
  }

  lemma NewIsAlone(table: Table, next: Id, yearSem: string, rows: seq<Row>, listing: seq<Id>, after: Table, id: Id,
        jd: Id)
    requires Lists(listing, table, yearSem) && Fresh(table, next) && Scrape(rows, yearSem)
    requires IsSnapshot(table, next, yearSem, rows, listing, after)
    requires id !in table && InSemester(after, yearSem, id) && InSemester(after, yearSem, jd) && id != jd
    ensures CourseIdentity(after[id]) != CourseIdentity(after[jd])
  {
    var k := NewRow(table, next, yearSem, rows, listing, after, id);
    if jd in table {
      OldRow(table, next, yearSem, rows, listing, after, jd);
    } else {
      var l := NewRow(table, next, yearSem, rows, listing, after, jd);
      AddedMembers(rows, Index(table, listing).Keys);
    }
  }

  /** The replacement leaves unique identities exactly when no two existing rows
      shared an identity that was scraped again. */
  lemma DistinctAfterExactly(table: Table, next: Id, yearSem: string, rows: seq<Row>, listing: seq<Id>, after: Table)
    requires Lists(listing, table, yearSem) && Fresh(table, next) && Scrape(rows, yearSem)
    requires IsSnapshot(table, next, yearSem, rows, listing, after)
    ensures Distinct(after, yearSem) <==>
      forall id, jd ::
        InSemester(table, yearSem, id) && InSemester(table, yearSem, jd) && id != jd
          && CourseIdentity(table[id]) in Identities(rows) ==>
        CourseIdentity(table[id]) != CourseIdentity(table[jd])
  {
    forall id, jd | InSemester(after, yearSem, id) && InSemester(after, yearSem, jd) && id != jd
      && CourseIdentity(after[id]) == CourseIdentity(after[jd])
      ensures InSemester(table, yearSem, id) && InSemester(table, yearSem, jd)
      ensures CourseIdentity(table[id]) == CourseIdentity(table[jd]) && CourseIdentity(table[id]) in Identities(rows)
    {
      SharedBefore(table, next, yearSem, rows, listing, after, id, jd);
    }
    forall id | InSemester(table, yearSem, id) && CourseIdentity(table[id]) in Identities(rows)
      ensures InSemester(after, yearSem, id) && CourseIdentity(after[id]) == CourseIdentity(table[id])
    {
      OldRow(table, next, yearSem, rows, listing, after, id);
    }
  }

  /** The one row an identity names is the one in the index. */
  lemma IndexOfDistinct(table: Table, yearSem: string, listing: seq<Id>, id: Id)
    requires Lists(listing, table, yearSem) && Distinct(table, yearSem) && InSemester(table, yearSem, id)
    ensures CourseIdentity(table[id]) in Index(table, listing) && Index(table, listing)[CourseIdentity(table[id])] == id
  {
    IndexMembers(table, listing);
    var other := Index(table, listing)[CourseIdentity(table[id])];
    assert InSemester(table, yearSem, other);
  }

  /** From unique identities the replacement is "the first row of each scraped
      identity": one row per identity, with that row's payload; old ids survive
      with their identity and other semesters are untouched. */
  lemma SnapshotIsTheScrape(table: Table, next: Id, yearSem: string, rows: seq<Row>, listing: seq<Id>, after: Table)
    requires Lists(listing, table, yearSem) && Fresh(table, next) && Scrape(rows, yearSem)
    requires IsSnapshot(table, next, yearSem, rows, listing, after) && Distinct(table, yearSem)
    ensures Distinct(after, yearSem)
    ensures forall ident :: Names(after, yearSem, ident) <==> ident in Identities(rows)
    ensures forall id :: InSemester(after, yearSem, id) ==>
      && CourseIdentity(after[id]) in Identities(rows)
      && var r := First(rows, CourseIdentity(after[id]));
         && after[id].yearSem == r.yearSem && after[id].code == r.code && after[id].dept == r.dept
         && after[id].nameZh == r.nameZh && after[id].teacher == r.teacher && after[id].room == r.room
         && after[id].classTime == Some(r.classTime) && after[id].rest == r.rest
    ensures forall id :: id in table && id in after ==> CourseIdentity(after[id]) == CourseIdentity(table[id])
    ensures forall id :: !InSemester(table, yearSem, id) && !InSemester(after, yearSem, id) ==>
      (id in after <==> id in table) && (id in table ==> after[id] == table[id])
  {
    DistinctAfterExactly(table, next, yearSem, rows, listing, after);
    forall ident ensures Names(after, yearSem, ident) <==> ident in Identities(rows) {
      NamesExactlyTheScrape(table, next, yearSem, rows, listing, after, ident);
    }
    forall id | id in table
      ensures id in after ==>
        CourseIdentity(after[id]) == CourseIdentity(table[id]) && after[id].yearSem == table[id].yearSem
      ensures !InSemester(table, yearSem, id) ==> id in after && after[id] == table[id]
    {
      OldRow(table, next, yearSem, rows, listing, after, id);
    }
    forall id | id in after && id !in table ensures InSemester(after, yearSem, id) {
      var k := NewRow(table, next, yearSem, rows, listing, after, id);
    }
    forall id | InSemester(after, yearSem, id)
      ensures CourseIdentity(after[id]) in Identities(rows)
        && after[id] == Stored(First(rows, CourseIdentity(after[id])))
    {
      PayloadIsFirst(table, next, yearSem, rows, listing, after, id);
    }
  }

  lemma PayloadIsFirst(table: Table, next: Id, yearSem: string, rows: seq<Row>, listing: seq<Id>, after: Table, id: Id)
    requires Lists(listing, table, yearSem) && Fresh(table, next) && Scrape(rows, yearSem)
    requires IsSnapshot(table, next, yearSem, rows, listing, after) && Distinct(table, yearSem)
      && InSemester(after, yearSem, id)
    ensures CourseIdentity(after[id]) in Identities(rows) && after[id] == Stored(First(rows, CourseIdentity(after[id])))
  {
    if id in table {
      OldRow(table, next, yearSem, rows, listing, after, id);
      IndexOfDistinct(table, yearSem, listing, id);
    } else {
      var k := NewRow(table, next, yearSem, rows, listing, after, id);
    }
  }

  /** Whatever the table was, a row of it is as before or holds every column of
      the first scraped row of its identity, and a new row does. */
  lemma EveryChangeIsScraped(table: Table, next: Id, yearSem: string, rows: seq<Row>, listing: seq<Id>, after: Table,
        id: Id)
    requires Lists(listing, table, yearSem) && Fresh(table, next) && Scrape(rows, yearSem)
    requires IsSnapshot(table, next, yearSem, rows, listing, after) && id in after
    requires id in table ==> after[id] != table[id]
    ensures exists i ::
      && 0 <= i < |rows| && Copies(after[id], rows[i]) && RowIdentity(rows[i]) == CourseIdentity(after[id])
      && forall j :: 0 <= j < i ==> RowIdentity(rows[j]) != RowIdentity(rows[i])
  {
    var ident := CourseIdentity(after[id]);
    if id in table {
      RenewedKeepsIdentity(table, yearSem, rows, Index(table, listing), id);
    } else {
      var k := NewRow(table, next, yearSem, rows, listing, after, id);
    }
    var i := FirstIndex(rows, ident);
  }

  lemma {:induction false} FirstIndex(rows: seq<Row>, ident: Identity) returns (i: nat)
    requires ident in Identities(rows)
    ensures i < |rows| && rows[i] == First(rows, ident) && RowIdentity(rows[i]) == ident
    ensures forall j :: 0 <= j < i ==> RowIdentity(rows[j]) != ident
  {
    i := 0;
    if RowIdentity(rows[0]) != ident {
      assert rows == [rows[0]] + rows[1..];
      var rest := FirstIndex(rows[1..], ident);
      i := rest + 1;
    }
  }

  /** From unique identities every existing row is updated or deleted. */
  lemma {:induction false} UpdatedPlusDeleted(table: Table, yearSem: string, listing: seq<Id>, seen: set<Identity>)
    requires forall id :: id in listing ==> InSemester(table, yearSem, id)
    requires forall i, j :: 0 <= i < j < |listing| ==> listing[i] != listing[j]
    requires Distinct(table, yearSem)
    ensures |seen * Index(table, listing).Keys| + |Vanished(table, listing, seen)| == |listing|
  {
    if listing != [] {
      var n := |listing| - 1;
      var front, last := listing[..n], listing[n];
      assert listing == front + [last] && last in listing;
      UpdatedPlusDeleted(table, yearSem, front, seen);
      IndexMembers(table, front);
      OneMoreListed(table, listing, seen);
    }
  }

  lemma OneMoreListed(table: Table, listing: seq<Id>, seen: set<Identity>)
    requires listing != [] && forall id :: id in listing ==> id in table
    requires var front, last := listing[..|listing| - 1], listing[|listing| - 1];
      last !in front && CourseIdentity(table[last]) !in Index(table, front)
    ensures var front := listing[..|listing| - 1];
      |seen * Index(table, listing).Keys| + |Vanished(table, listing, seen)| ==
        |seen * Index(table, front).Keys| + |Vanished(table, front, seen)| + 1
  {
    var front, last := listing[..|listing| - 1], listing[|listing| - 1];
    var ident := CourseIdentity(table[last]);
    assert listing == front + [last];
    if ident in seen {
      assert seen * Index(table, listing).Keys == seen * Index(table, front).Keys + {ident};
      assert Vanished(table, listing, seen) == Vanished(table, front, seen);
    } else {
      assert seen * Index(table, listing).Keys == seen * Index(table, front).Keys;
      assert Vanished(table, listing, seen) == Vanished(table, front, seen) + {last};
    }
  }

  /** Replacing again by the same scrape changes nothing. */
  lemma ReplacingAgainChangesNothing(table: Table, next: Id, yearSem: string, rows: seq<Row>, listing: seq<Id>,
        once: Table, next2: Id, listing2: seq<Id>, twice: Table)
    requires Lists(listing, table, yearSem) && Fresh(table, next) && Scrape(rows, yearSem) && Distinct(table, yearSem)
    requires IsSnapshot(table, next, yearSem, rows, listing, once)
    requires Lists(listing2, once, yearSem) && Fresh(once, next2)
    requires IsSnapshot(once, next2, yearSem, rows, listing2, twice)
    ensures twice == once
  {
    SnapshotIsTheScrape(table, next, yearSem, rows, listing, once);
    NothingToAdd(once, yearSem, rows, listing2);
    forall id | id in once ensures id in twice && twice[id] == once[id] {
      OldRow(once, next2, yearSem, rows, listing2, twice, id);
    }
    assert twice.Keys == once.Keys;
  }

  lemma NothingToAdd(once: Table, yearSem: string, rows: seq<Row>, listing: seq<Id>)
    requires Lists(listing, once, yearSem) && forall ident :: ident in Identities(rows) ==> Names(once, yearSem, ident)
    ensures Added(rows, Index(once, listing).Keys) == []
  {
    IndexMembers(once, listing);
    forall ident | ident in Identities(rows) ensures ident in Index(once, listing) {
      assert Names(once, yearSem, ident);
    }
    AllKnown(rows, Index(once, listing).Keys);
  }

  lemma {:induction false} AllKnown(rows: seq<Row>, known: set<Identity>)
    requires Identities(rows) <= known
    ensures Added(rows, known) == []
  {
    if rows != [] {
      var n := |rows| - 1;
      IdentitiesSnoc(rows, n);
      assert rows[..n + 1] == rows;
      AllKnown(rows[..n], known);
    }
  }

  // ---------- histories of replacements ----------

  /** Two rows without a code may carry one identity, and a scrape that names it
      keeps them both. */
  lemma TwinsAreKept(yearSem: string, row: Row)
    requires row.yearSem == yearSem && row.code.None?
    ensures exists table: Table, next: Id, listing: seq<Id>, after: Table ::
      && Lists(listing, table, yearSem) && Fresh(table, next) && Scrape([row], yearSem)
      && IsSnapshot(table, next, yearSem, [row], listing, after) && !Distinct(after, yearSem)
  {
    var table: Table := map[0 := Stored(row), 1 := Stored(row)];
    var listing: seq<Id> := [0, 1];
    assert Lists(listing, table, yearSem) && Fresh(table, 2);
    IndexMembers(table, listing);
    assert CourseIdentity(table[0]) == RowIdentity(row) && 0 in listing;
    assert RowIdentity(row) in Index(table, listing);
    assert [row][..0] == [];
    assert Added([row], Index(table, listing).Keys) == [];
    assert row in [row] && RowIdentity(row) in Identities([row]);
    assert First([row], RowIdentity(row)) == row;
    assert IsSnapshot(table, 2, yearSem, [row], listing, table);
    assert InSemester(table, yearSem, 0) && InSemester(table, yearSem, 1);
  }

  datatype Replacement = Replacement(yearSem: string, rows: seq<Row>, listing: seq<Id>)

  /** The tables a sequence of replacements goes through, of whatever semesters;
      `nexts` are the ids free at each. */
  ghost predicate Goes(tables: seq<Table>, nexts: seq<Id>, steps: seq<Replacement>) {
    && |tables| == |nexts| == |steps| + 1
    && forall i :: 0 <= i < |steps| ==> Replaces(tables[i], nexts[i], steps[i], tables[i + 1])
  }

  ghost predicate Replaces(table: Table, next: Id, step: Replacement, after: Table) {
    && Lists(step.listing, table, step.yearSem) && Fresh(table, next) && Scrape(step.rows, step.yearSem)
    && IsSnapshot(table, next, step.yearSem, step.rows, step.listing, after)
  }

  ghost predicate AllDistinct(table: Table) {
    forall yearSem :: Distinct(table, yearSem)
  }

  lemma ReplacementKeepsDistinct(table: Table, next: Id, step: Replacement, after: Table)
    requires Replaces(table, next, step, after) && AllDistinct(table)
    ensures AllDistinct(after)
  {
    hide IsSnapshot;
    SnapshotIsTheScrape(table, next, step.yearSem, step.rows, step.listing, after);
    forall yearSem | yearSem != step.yearSem ensures Distinct(after, yearSem) {
      assert Distinct(table, yearSem);
      forall id | InSemester(after, yearSem, id) ensures InSemester(table, yearSem, id) && after[id] == table[id] {
        if id in table {
          OldRow(table, next, step.yearSem, step.rows, step.listing, after, id);
        } else {
          var k := NewRow(table, next, step.yearSem, step.rows, step.listing, after, id);
        }
      }
    }
  }

  /** Unique identities stay so over any sequence of replacements; in particular
      no sequence from the empty catalog makes twins. */
  lemma {:induction false} DistinctForGood(tables: seq<Table>, nexts: seq<Id>, steps: seq<Replacement>)
    requires Goes(tables, nexts, steps) && AllDistinct(tables[0])
    ensures AllDistinct(tables[|steps|])
  {
    hide Replaces, AllDistinct;
    if steps != [] {
      var n := |steps| - 1;
      var before, free, front := tables[..n + 1], nexts[..n + 1], steps[..n];
      forall i | 0 <= i < n ensures Replaces(before[i], free[i], front[i], before[i + 1]) {
        assert Replaces(tables[i], nexts[i], steps[i], tables[i + 1]);
      }
      DistinctForGood(before, free, front);
      ReplacementKeepsDistinct(tables[n], nexts[n], steps[n], tables[n + 1]);
    }
  }

  lemma EmptyIsDistinct()
    ensures AllDistinct(map[])
  {
  }
}
