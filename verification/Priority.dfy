/** `frontend/src/lib/priority.ts`: wish priorities, their display order, and
    manual edits. */
module Priority {
  import opened Wrappers
  import opened Digits
  import SelectionGrid

  const PRIORITY_MAX: nat := 20

  /** A missing key reads as unprioritized. */
  type PriorityMap = map<string, Option<int>>

  function Of(priorities: PriorityMap, id: string): Option<int> {
    if id in priorities then priorities[id] else None
  }

  // ---------- display order ----------

  datatype Entry = Entry(id: string, index: nat, priority: Option<int>)

  /** The comparator: priorities ascending, unprioritized last, ties by input
      position. */
  predicate Le(a: Entry, b: Entry) {
    if a.priority.None? && b.priority.None? then a.index <= b.index
    else if a.priority.None? then false
    else if b.priority.None? then true
    else if a.priority == b.priority then a.index <= b.index
    else a.priority.value < b.priority.value
  }

  function Insert(e: Entry, s: seq<Entry>): seq<Entry> {
    if s == [] || Le(e, s[0]) then [e] + s else [s[0]] + Insert(e, s[1..])
  }

  function Sort(s: seq<Entry>): seq<Entry> {
    if s == [] then [] else Insert(s[0], Sort(s[1..]))
  }

  function Entries(ids: seq<string>, priorities: PriorityMap): seq<Entry> {
    seq(|ids|, i requires 0 <= i < |ids| => Entry(ids[i], i, Of(priorities, ids[i])))
  }

  function IdsOf(s: seq<Entry>): seq<string> {
    seq(|s|, i requires 0 <= i < |s| => s[i].id)
  }

  function OrderIdsByPriority(ids: seq<string>, priorities: PriorityMap): seq<string> {
    IdsOf(Sort(Entries(ids, priorities)))
  }

  /** After a drag: place `i` gets priority `i + 1`, places past the twentieth
      get none. A repeated id keeps the last place. */
  method AssignSequentialPriority(ordered: seq<string>) returns (next: PriorityMap)
    ensures next == Assigned(ordered)
  {
    next := map[];
    for i := 0 to |ordered|
      invariant next == Assigned(ordered[..i])
    {
      assert ordered[..i + 1][..i] == ordered[..i];
      next := next[ordered[i] := if i < PRIORITY_MAX then Some(i + 1) else None];
    }
    assert ordered[..|ordered|] == ordered;
  }

  function Assigned(ordered: seq<string>): PriorityMap {
    if ordered == [] then map[]
    else
      var i := |ordered| - 1;
      Assigned(ordered[..i])[ordered[i] := if i < PRIORITY_MAX then Some(i + 1) else None]
  }

  ghost predicate Distinct(ids: seq<string>) {
    forall i, j :: 0 <= i < j < |ids| ==> ids[i] != ids[j]
  }

  lemma {:induction false} AssignedAt(ordered: seq<string>, i: nat)
    requires Distinct(ordered) && i < |ordered|
    ensures Of(Assigned(ordered), ordered[i]) == if i < 20 then Some(i + 1) else None
  {
    var last := |ordered| - 1;
    if i < last {
      AssignedAt(ordered[..last], i);
    }
  }

  // ---------- sorting ----------

  ghost predicate Sorted(s: seq<Entry>) {
    forall i, j :: 0 <= i < j < |s| ==> Le(s[i], s[j])
  }

  lemma {:induction false} InsertMembers(e: Entry, s: seq<Entry>)
    ensures multiset(Insert(e, s)) == multiset(s) + multiset{e}
    ensures forall x :: x in Insert(e, s) <==> x == e || x in s
  {
    hide Le;
    if s != [] && !Le(e, s[0]) {
      InsertMembers(e, s[1..]);
      assert s == [s[0]] + s[1..];
    }
  }

  lemma ConsSorts(e: Entry, s: seq<Entry>)
    requires Sorted(s) && forall x :: x in s ==> Le(e, x)
    ensures Sorted([e] + s)
  {
    hide Le;
    forall i, j | 0 <= i < j < |[e] + s| ensures Le(([e] + s)[i], ([e] + s)[j]) {
      assert ([e] + s)[j] == s[j - 1] && s[j - 1] in s;
    }
  }

  lemma LeHead(e: Entry, s: seq<Entry>)
    requires Sorted(s) && s != [] && Le(e, s[0])
    ensures forall x :: x in s ==> Le(e, x)
  {
    forall x | x in s ensures Le(e, x) {
      var i :| 0 <= i < |s| && s[i] == x;
      assert i > 0 ==> Le(s[0], s[i]);
    }
  }

  lemma {:induction false} InsertSorts(e: Entry, s: seq<Entry>)
    requires Sorted(s)
    ensures Sorted(Insert(e, s)) && multiset(Insert(e, s)) == multiset(s) + multiset{e}
  {
    InsertMembers(e, s);
    if s == [] {
      ConsSorts(e, s);
    } else if Le(e, s[0]) {
      LeHead(e, s);
      ConsSorts(e, s);
    } else {
      TailSorted(s);
      InsertSorts(e, s[1..]);
      InsertMembers(e, s[1..]);
      LeOthers(e, s);
      ConsSorts(s[0], Insert(e, s[1..]));
    }
  }

  lemma LeOthers(e: Entry, s: seq<Entry>)
    requires Sorted(s) && s != [] && !Le(e, s[0])
    ensures forall x :: x == e || x in s[1..] ==> Le(s[0], x)
  {
    forall x | x in s[1..] ensures Le(s[0], x) {
      var i :| 0 <= i < |s[1..]| && s[1..][i] == x;
      assert x == s[i + 1];
    }
  }

  lemma {:induction false} SortSorts(s: seq<Entry>)
    ensures Sorted(Sort(s)) && multiset(Sort(s)) == multiset(s)
  {
    if s != [] {
      SortSorts(s[1..]);
      InsertSorts(s[0], Sort(s[1..]));
      assert s == [s[0]] + s[1..];
    }
  }

  lemma WithoutAt<T>(s: seq<T>, k: nat)
    requires k < |s|
    ensures multiset(s[..k] + s[k + 1..]) == multiset(s) - multiset{s[k]}
  {
    assert s == s[..k] + [s[k]] + s[k + 1..];
  }

  lemma WithoutHead<T>(s: seq<T>)
    requires s != []
    ensures multiset(s[1..]) == multiset(s) - multiset{s[0]} && s[0] in multiset(s) && s == [s[0]] + s[1..]
  {
    assert s == [s[0]] + s[1..];
  }

  lemma SameContents<T>(a: seq<T>, b: seq<T>)
    requires multiset(a) == multiset(b)
    ensures |a| == |b| && forall x :: x in a ==> x in b
  {
    assert |a| == |multiset(a)| == |b|;
    forall x | x in a ensures x in b {
      assert x in multiset(a);
    }
  }

  /** Input positions make the order strict, so it has one sorted arrangement. */
  lemma {:induction false} SortedIsUnique(a: seq<Entry>, b: seq<Entry>)
    requires Sorted(a) && Sorted(b) && multiset(a) == multiset(b)
    requires forall i, j :: 0 <= i < |a| && 0 <= j < |a| && a[i].index == a[j].index ==> a[i] == a[j]
    ensures a == b
  {
    hide Sorted, Le;
    SameContents(a, b);
    SameContents(b, a);
    if a != [] {
      HeadsAgree(a, b);
      WithoutHead(a);
      WithoutHead(b);
      TailSorted(a);
      TailSorted(b);
      SortedIsUnique(a[1..], b[1..]);
    }
  }

  lemma TailSorted(s: seq<Entry>)
    requires Sorted(s) && s != []
    ensures Sorted(s[1..])
  {
  }

  lemma HeadsAgree(a: seq<Entry>, b: seq<Entry>)
    requires Sorted(a) && Sorted(b) && a != [] && b != [] && a[0] in b && b[0] in a
    requires forall i, j :: 0 <= i < |a| && 0 <= j < |a| && a[i].index == a[j].index ==> a[i] == a[j]
    ensures a[0] == b[0]
  {
    var i :| 0 <= i < |b| && b[i] == a[0];
    var j :| 0 <= j < |a| && a[j] == b[0];
    assert i > 0 ==> Le(b[0], a[0]);
    assert j > 0 ==> Le(a[0], b[0]);
  }

  // ---------- a drag survives ----------

  /** Where an id stood in the incoming order. */
  function Place(ids: seq<string>, id: string): (i: nat)
    requires id in ids
    ensures i < |ids| && ids[i] == id
  {
    if ids[0] == id then 0 else 1 + Place(ids[1..], id)
  }

  /** The tail past the twentieth place stands in its incoming order. */
  ghost predicate TailInOrder(dragged: seq<string>, ids: seq<string>)
    requires forall id :: id in dragged ==> id in ids
  {
    forall i, j :: 20 <= i < j < |dragged| ==> Place(ids, dragged[i]) < Place(ids, dragged[j])
  }

  function Dragged(dragged: seq<string>, ids: seq<string>, priorities: PriorityMap): seq<Entry>
    requires forall id :: id in dragged ==> id in ids
  {
    seq(|dragged|, i requires 0 <= i < |dragged| =>
      Entry(dragged[i], Place(ids, dragged[i]), Of(priorities, dragged[i])))
  }

  lemma PlaceAt(ids: seq<string>, i: nat)
    requires Distinct(ids) && i < |ids|
    ensures Place(ids, ids[i]) == i
  {
    var p := Place(ids, ids[i]);
    assert ids[p] == ids[i];
  }

  lemma DraggedSortedExactly(dragged: seq<string>, ids: seq<string>)
    requires Distinct(dragged) && Distinct(ids) && forall id :: id in dragged ==> id in ids
    ensures Sorted(Dragged(dragged, ids, Assigned(dragged))) <==> TailInOrder(dragged, ids)
  {
    var s := Dragged(dragged, ids, Assigned(dragged));
    forall i, j | 0 <= i < j < |dragged|
      ensures Le(s[i], s[j]) <==> i < 20 || Place(ids, dragged[i]) < Place(ids, dragged[j])
    {
      AssignedAt(dragged, i);
      AssignedAt(dragged, j);
      assert ids[Place(ids, dragged[i])] != ids[Place(ids, dragged[j])];
    }
  }

  lemma SameEntries(dragged: seq<string>, ids: seq<string>, priorities: PriorityMap)
    requires Distinct(ids) && multiset(dragged) == multiset(ids)
    requires forall id :: id in dragged ==> id in ids
    ensures multiset(Dragged(dragged, ids, priorities)) == multiset(Entries(ids, priorities))
  {
    var entryOf := (id: string) => if id in ids then Entry(id, Place(ids, id), Of(priorities, id))
      else Entry(id, 0, None);
    assert Dragged(dragged, ids, priorities) == Mapped(dragged, entryOf);
    forall i | 0 <= i < |ids| ensures Entries(ids, priorities)[i] == Mapped(ids, entryOf)[i] {
      PlaceAt(ids, i);
    }
    assert Entries(ids, priorities) == Mapped(ids, entryOf);
    MappedMultiset(dragged, ids, entryOf);
  }

  function Mapped(ids: seq<string>, f: string -> Entry): seq<Entry> {
    seq(|ids|, i requires 0 <= i < |ids| => f(ids[i]))
  }

  lemma {:induction false} MappedMultiset(a: seq<string>, b: seq<string>, f: string -> Entry)
    requires multiset(a) == multiset(b)
    ensures multiset(Mapped(a, f)) == multiset(Mapped(b, f))
  {
    hide Mapped;
    SameContents(a, b);
    if a == [] {
      assert b == [];
    } else {
      assert a[0] in b;
      var k :| 0 <= k < |b| && b[k] == a[0];
      WithoutHead(a);
      WithoutAt(b, k);
      MappedMultiset(a[1..], b[..k] + b[k + 1..], f);
      assert a[..0] + a[1..] == a[1..];
      MappedWithout(a, f, 0);
      MappedWithout(b, f, k);
    }
  }

  lemma MappedWithout(s: seq<string>, f: string -> Entry, k: nat)
    requires k < |s|
    ensures multiset(Mapped(s, f)) == multiset(Mapped(s[..k] + s[k + 1..], f)) + multiset{f(s[k])}
  {
    var m := Mapped(s, f);
    WithoutAt(m, k);
    assert Mapped(s[..k] + s[k + 1..], f) == m[..k] + m[k + 1..];
    assert m[k] in multiset(m);
  }

  /** Re-reading the list after a drag shows the dragged order exactly when what
      lies past the twentieth place kept its incoming order. */
  lemma DragSurvivesExactly(dragged: seq<string>, ids: seq<string>)
    requires Distinct(ids) && multiset(dragged) == multiset(ids)
    ensures Distinct(dragged) && forall id :: id in dragged ==> id in ids
    ensures OrderIdsByPriority(ids, Assigned(dragged)) == dragged <==> TailInOrder(dragged, ids)
  {
    SamePlaces(dragged, ids);
    var priorities := Assigned(dragged);
    var sorted, shown := Sort(Entries(ids, priorities)), Dragged(dragged, ids, priorities);
    SortSorts(Entries(ids, priorities));
    SameEntries(dragged, ids, priorities);
    DraggedSortedExactly(dragged, ids);
    EntriesByIndex(ids, priorities, sorted);
    if TailInOrder(dragged, ids) {
      SortedIsUnique(sorted, shown);
      assert IdsOf(shown) == dragged;
    }
    if IdsOf(sorted) == dragged {
      forall i | 0 <= i < |sorted| ensures sorted[i] == shown[i] {
        assert sorted[i].id == IdsOf(sorted)[i] == dragged[i];
        EntryOfId(ids, priorities, sorted[i]);
      }
      assert sorted == shown;
    }
  }

  lemma SamePlaces(dragged: seq<string>, ids: seq<string>)
    requires Distinct(ids) && multiset(dragged) == multiset(ids)
    ensures Distinct(dragged) && forall id :: id in dragged ==> id in ids
  {
    forall id | id in dragged ensures id in ids {
      assert id in multiset(dragged);
    }
    forall i, j | 0 <= i < j < |dragged| ensures dragged[i] != dragged[j] {
      if dragged[i] == dragged[j] {
        TwiceCounts(dragged, i, j);
        OnceCounts(ids, dragged[i]);
      }
    }
  }

  lemma TwiceCounts(s: seq<string>, i: nat, j: nat)
    requires i < j < |s| && s[i] == s[j]
    ensures multiset(s)[s[i]] >= 2
  {
    assert s == s[..i] + [s[i]] + s[i + 1..j] + [s[j]] + s[j + 1..];
  }

  lemma {:induction false} OnceCounts(s: seq<string>, id: string)
    requires Distinct(s)
    ensures multiset(s)[id] <= 1
  {
    if s != [] {
      assert s == [s[0]] + s[1..];
      OnceCounts(s[1..], id);
      if s[0] == id {
        assert id !in s[1..];
        assert id !in multiset(s[1..]);
      }
    }
  }

  lemma EntriesByIndex(ids: seq<string>, priorities: PriorityMap, sorted: seq<Entry>)
    requires multiset(sorted) == multiset(Entries(ids, priorities))
    ensures |sorted| == |ids|
    ensures forall i :: 0 <= i < |sorted| ==> sorted[i] in Entries(ids, priorities)
    ensures forall i, j ::
      0 <= i < |sorted| && 0 <= j < |sorted| && sorted[i].index == sorted[j].index ==> sorted[i] == sorted[j]
  {
    assert |multiset(sorted)| == |sorted|;
    forall i | 0 <= i < |sorted| ensures sorted[i] in Entries(ids, priorities) {
      assert sorted[i] in multiset(sorted);
    }
    forall i, j | 0 <= i < |sorted| && 0 <= j < |sorted| && sorted[i].index == sorted[j].index
      ensures sorted[i] == sorted[j]
    {
      assert sorted[i] in Entries(ids, priorities) && sorted[j] in Entries(ids, priorities);
    }
  }

  lemma EntryOfId(ids: seq<string>, priorities: PriorityMap, e: Entry)
    requires Distinct(ids) && e in Entries(ids, priorities)
    ensures e.id in ids && e == Entry(e.id, Place(ids, e.id), Of(priorities, e.id))
  {
    var i :| 0 <= i < |ids| && Entries(ids, priorities)[i] == e;
    PlaceAt(ids, i);
  }

  /** Ordering by the priorities just assigned is the identity. */
  lemma AssignThenOrderIsIdentity(ids: seq<string>)
    requires Distinct(ids)
    ensures OrderIdsByPriority(ids, Assigned(ids)) == ids
  {
    forall i | 0 <= i < |ids| ensures Place(ids, ids[i]) == i {
      PlaceAt(ids, i);
    }
    DragSurvivesExactly(ids, ids);
  }

  // ---------- manual edits ----------

  datatype EditError = Invalid | Range | Duplicate(holder: string)

  /** The raw text of an edit: empty clears, digits name a number. */
  predicate Clears(raw: string) {
    SelectionGrid.Trim(raw) == ""
  }

  predicate NamesNumber(raw: string) {
    AllDigits(SelectionGrid.Trim(raw))
  }

  function NumberNamed(raw: string): int
    requires NamesNumber(raw)
  {
    Number(SelectionGrid.Trim(raw))
  }

  /** Somebody else holds the number. */
  predicate TakenBy(priorities: PriorityMap, courseId: string, ordered: seq<string>, n: int, i: int) {
    0 <= i < |ordered| && ordered[i] != courseId && Of(priorities, ordered[i]) == Some(n)
  }

  ghost predicate Acceptable(priorities: PriorityMap, courseId: string, raw: string, ordered: seq<string>) {
    SelectionGrid.Trim(raw) == ""
    || (AllDigits(SelectionGrid.Trim(raw)) && 1 <= Number(SelectionGrid.Trim(raw)) <= 20
        && forall i :: !TakenBy(priorities, courseId, ordered, NumberNamed(raw), i))
  }

  function Meant(raw: string): Option<int> {
    if NamesNumber(raw) then Some(NumberNamed(raw)) else None
  }

  /** An edit is accepted exactly when it clears, or names a number in 1..20 that
      no other course holds; a rejected edit changes nothing and names the first
      holder. */
  method ApplyPriorityEdit(priorities: PriorityMap, courseId: string, raw: string, ordered: seq<string>)
    returns (next: PriorityMap, error: Option<EditError>)
    ensures error.None? <==> Acceptable(priorities, courseId, raw, ordered)
    ensures next == if error.None? then priorities[courseId := Meant(raw)] else priorities
    ensures error == Some(Invalid) <==> !Clears(raw) && !NamesNumber(raw)
    ensures error == Some(Range) <==> !Clears(raw) && NamesNumber(raw) && !(1 <= NumberNamed(raw) <= PRIORITY_MAX)
    ensures error.Some? && error.value.Duplicate? ==> NamesNumber(raw) && exists i ::
      TakenBy(priorities, courseId, ordered, NumberNamed(raw), i) && ordered[i] == error.value.holder
        && forall j :: 0 <= j < i ==> !TakenBy(priorities, courseId, ordered, NumberNamed(raw), j)
  {
    var trimmed := SelectionGrid.Trim(raw);
    if trimmed == "" {
      return priorities[courseId := None], None;
    }
    if !AllDigits(trimmed) {
      return priorities, Some(Invalid);
    }
    var numeric := Number(trimmed);
    if numeric < 1 || numeric > PRIORITY_MAX {
      return priorities, Some(Range);
    }
    for i := 0 to |ordered|
      invariant forall j :: 0 <= j < i ==> !TakenBy(priorities, courseId, ordered, numeric, j)
    {
      if ordered[i] != courseId && Of(priorities, ordered[i]) == Some(numeric) {
        assert TakenBy(priorities, courseId, ordered, NumberNamed(raw), i);
        return priorities, Some(Duplicate(ordered[i]));
      }
    }
    return priorities[courseId := Some(numeric)], None;
  }
}
