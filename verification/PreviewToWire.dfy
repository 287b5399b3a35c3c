/** From a writable preview to the posted form: what the verdicts of
    `write/preview.py` buy the stages behind it. */
module PreviewToWire {
  import opened Wrappers
  import opened Ops
  import opened Canonical
  import opened Segments
  import opened Payload
  import opened Timetable
  import opened Preview
  import opened PreviewInputs

  /** What the request checks let through: adds carry a priority. */
  predicate Priced(ops: seq<ResolvedOp>) {
    forall i :: 0 <= i < |ops| && ops[i].add ==> ops[i].priority.Some? && ops[i].priority.value >= 1
  }

  predicate AllWritable(vs: seq<OpVerdict>) {
    forall i :: 0 <= i < |vs| ==> vs[i].writable
  }

  predicate Coded(ops: seq<ResolvedOp>) {
    forall i :: 0 <= i < |ops| ==> ops[i].course.code.Some?
  }

  function ToOp(op: ResolvedOp): Op
    requires op.course.code.Some? && (op.add ==> op.priority.Some? && op.priority.value >= 1)
  {
    if op.add then Add(op.course.code.value, op.priority.value) else Drop(op.course.code.value)
  }

  /** The batch handed to `canonical_ops`, in request order. */
  function Batch(ops: seq<ResolvedOp>): seq<Op>
    requires Priced(ops) && Coded(ops)
  {
    seq(|ops|, i requires 0 <= i < |ops| => ToOp(ops[i]))
  }

  /** The batch is the request, op by op. */
  lemma BatchIsTheRequest(ops: seq<ResolvedOp>, i: nat)
    requires Priced(ops) && Coded(ops) && i < |ops|
    ensures |Batch(ops)| == |ops|
    ensures Batch(ops)[i].code == ops[i].course.code.value
    ensures if ops[i].add then Batch(ops)[i].Add? && Some(Batch(ops)[i].priority as int) == ops[i].priority
      else Batch(ops)[i].Drop?
  {
  }

  ghost predicate DistinctCodes(ops: seq<Op>) {
    forall i, j :: 0 <= i < j < |ops| ==> ops[i].code != ops[j].code
  }

  /** A writable preview of a batch whose adds are priced. */
  ghost predicate Writable(ops: seq<ResolvedOp>, selected: set<string>, targets: seq<Target>, vs: seq<OpVerdict>) {
    Judged(ops, selected, targets, vs) && AllWritable(vs) && Priced(ops)
  }

  lemma WritableIsCoded(ops: seq<ResolvedOp>, selected: set<string>, targets: seq<Target>, vs: seq<OpVerdict>)
    requires Writable(ops, selected, targets, vs)
    ensures Coded(ops)
    ensures forall i :: 0 <= i < |ops| ==> !IsMixed(ops, ops[i].course.code.value)
    ensures forall i :: 0 <= i < |ops| && !ops[i].add ==> ops[i].course.code.value in selected
  {
    forall i | 0 <= i < |ops|
      ensures ops[i].course.code.Some? && !IsMixed(ops, ops[i].course.code.value)
      ensures !ops[i].add ==> ops[i].course.code.value in selected
    {
      assert JudgedAt(ops, selected, targets, vs, i);
    }
  }

  /** No code is both added and dropped, so the canonical batch, strictly sorted
      by action and code, has each code once. */
  lemma CanonicalCodesDistinct(ops: seq<ResolvedOp>, selected: set<string>, targets: seq<Target>, vs: seq<OpVerdict>)
    requires Writable(ops, selected, targets, vs)
    ensures Coded(ops) && DistinctCodes(Canon(Batch(ops)))
  {
    WritableIsCoded(ops, selected, targets, vs);
    var batch := Batch(ops);
    var c := Canon(batch);
    CanonKeepsFirsts(batch);
    forall i, j | 0 <= i < j < |c| ensures c[i].code != c[j].code {
      assert KeyLt(c[i], c[j]);
      if c[i].code == c[j].code {
        assert IsFirst(batch, c[i]) && IsFirst(batch, c[j]);
        var a :| 0 <= a < |batch| && batch[a] == c[i];
        var b :| 0 <= b < |batch| && batch[b] == c[j];
        TextLeReflexive(c[i].code);
        assert c[i].Drop? && c[j].Add?;
        assert !ops[a].add && ops[b].add;
        assert IsMixed(ops, c[i].code);
        assert false;
      }
    }
  }

  /** The canonical batch asks for every requested code with the requested
      action, and for nothing else. */
  lemma CanonicalCoversRequest(ops: seq<ResolvedOp>, code: string, add: bool)
    requires Priced(ops) && Coded(ops)
    ensures (exists i :: 0 <= i < |ops| && ops[i].add == add && ops[i].course.code.value == code)
       <==> (exists o :: o in Canon(Batch(ops)) && o.Add? == add && o.code == code)
  {
    var batch := Batch(ops);
    CanonKeepsFirsts(batch);
    if i :| 0 <= i < |ops| && ops[i].add == add && ops[i].course.code.value == code {
      assert SameKey(batch[i], batch[i]);
      assert HasKey(batch, batch[i]);
      assert SameFirst(Canon(batch), batch, batch[i]);
      assert FirstOf(Canon(batch), batch[i]) in Canon(batch);
    }
    if o :| o in Canon(batch) && o.Add? == add && o.code == code {
      assert IsFirst(batch, o);
      assert FirstOf(batch, o) in batch;
      var i :| 0 <= i < |batch| && batch[i] == o;
      assert ops[i].add == add && ops[i].course.code.value == code;
    }
  }

  /** An add of the canonical batch carries the priority its code was first asked
      for with. */
  lemma CanonicalKeepsPriorities(ops: seq<ResolvedOp>, o: Op)
    requires Priced(ops) && Coded(ops) && o in Canon(Batch(ops)) && o.Add?
    ensures exists i ::
      && 0 <= i < |ops| && ops[i].add && ops[i].course.code.value == o.code
      && ops[i].priority == Some(o.priority as int)
      && forall j :: 0 <= j < i && ops[j].add ==> ops[j].course.code.value != o.code
  {
    var batch := Batch(ops);
    CanonKeepsFirsts(batch);
    assert IsFirst(batch, o);
    var i := FirstPlace(batch, o);
    forall j | 0 <= j < i && ops[j].add ensures ops[j].course.code.value != o.code {
      assert !SameKey(batch[j], o);
    }
  }

  /** The answer the school gives for a code belongs to one canonical op. */
  lemma VerdictBelongsToOneOp(ops: seq<ResolvedOp>, selected: set<string>, targets: seq<Target>, vs: seq<OpVerdict>,
        i: nat)
    requires Writable(ops, selected, targets, vs) && i < |ops|
    ensures Coded(ops)
    ensures exists k ::
      && 0 <= k < |Canon(Batch(ops))|
      && Canon(Batch(ops))[k].code == ops[i].course.code.value && Canon(Batch(ops))[k].Add? == ops[i].add
      && forall l :: 0 <= l < |Canon(Batch(ops))| && Canon(Batch(ops))[l].code == ops[i].course.code.value ==> l == k
  {
    CanonicalCodesDistinct(ops, selected, targets, vs);
    var c := Canon(Batch(ops));
    CanonicalCoversRequest(ops, ops[i].course.code.value, ops[i].add);
    var o :| o in c && o.Add? == ops[i].add && o.code == ops[i].course.code.value;
    var k :| 0 <= k < |c| && c[k] == o;
    assert forall l :: 0 <= l < |c| && c[l].code == ops[i].course.code.value ==> l == k;
  }

  /** The worker, which only has the stored segments, re-derives the previewed
      batch, and a form filled in with it carries that batch and no other. */
  lemma PreviewReachesTheWire(ops: seq<ResolvedOp>, selected: set<string>, targets: seq<Target>, vs: seq<OpVerdict>,
        hidden: Form, defaultRows: nat)
    requires Writable(ops, selected, targets, vs) && ops != []
    requires forall i :: 0 <= i < |ops| && ops[i].course.code.Some? ==> GoodCode(ops[i].course.code.value)
    ensures Coded(ops)
    ensures var canonical := Canon(Batch(ops));
      var built := BuiltForm(canonical, hidden, defaultRows);
      var rows := RowsTotal(hidden, defaultRows);
      && Parse(Print(canonical)) == Ok(canonical)
      && (built.Ok? <==> |canonical| <= rows)
      && (built.Ok? ==> Carries(built.value, canonical, rows) && Verbatim(built.value, hidden, rows))
      && (built.Ok? ==> (forall other :: GoodCodes(other) && Carries(built.value, other, rows) ==> other == canonical))
  {
    WritableIsCoded(ops, selected, targets, vs);
    var batch := Batch(ops);
    assert GoodCodes(batch);
    CanonKeepsGoodCodes(batch);
    assert Canon(batch) != [] by {
      CanonicalCoversRequest(ops, ops[0].course.code.value, ops[0].add);
      assert 0 <= 0 < |ops| && ops[0].add == ops[0].add && ops[0].course.code.value == ops[0].course.code.value;
    }
    ParsePrint(Canon(batch));
    BuiltFormIsBuild(Canon(batch), hidden, defaultRows);
    var built := BuiltForm(Canon(batch), hidden, defaultRows);
    if built.Ok? {
      forall other | GoodCodes(other) && Carries(built.value, other, RowsTotal(hidden, defaultRows))
        ensures other == Canon(batch)
      {
        CarriesDeterminesBatch(built.value, other, Canon(batch), RowsTotal(hidden, defaultRows));
      }
    }
  }

  predicate HasSlot(time: seq<string>) {
    exists d :: 0 <= d < 7 && Timetable.Slot(time, d) != ""
  }

  lemma ClashesItself(time: seq<string>)
    ensures Clash(time, time) <==> HasSlot(time)
  {
    forall d | 0 <= d < 7 ensures ClashOn(time, time, d) <==> Timetable.Slot(time, d) != "" {
      var raw := Timetable.Slot(time, d);
      if raw != "" {
        assert Upper(raw[0]) in Codes(raw);
        assert Upper(raw[0]) in Codes(raw) * Codes(raw);
      }
    }
  }

  /** A course with class hours cannot pass twice, under whatever idents: its
      second add resolves to the same catalog row and clashes with its first. So
      a writable batch loses a priority in the canonical form only for a course
      without hours. */
  lemma RepeatedAddsHaveNoHours(rows: seq<CatalogRow>, yearSem: string, ops: seq<ResolvedOp>, selected: set<string>,
        targets: seq<Target>, vs: seq<OpVerdict>)
    requires TableKeys(rows) && AddsResolved(rows, yearSem, ops)
    requires Writable(ops, selected, targets, vs)
    requires forall i :: 0 <= i < |ops| && ops[i].add ==> HasSlot(ops[i].course.classTime)
    ensures Coded(ops) && Agree(Batch(ops))
    ensures forall i, j :: 0 <= i < j < |ops| && ops[i].add && ops[j].add ==> ops[i].course.code != ops[j].course.code
  {
    hide AddsResolved, TableKeys;
    WritableIsCoded(ops, selected, targets, vs);
    PassedAddsAreClashFree(ops, selected, targets, vs);
    forall i, j | 0 <= i < j < |ops| && ops[i].add && ops[j].add ensures ops[i].course.code != ops[j].course.code {
      if ops[i].course.code == ops[j].course.code {
        OneCodeIsOneCourse(rows, yearSem, ops, i, j);
        ClashesItself(ops[i].course.classTime);
        assert false;
      }
    }
    forall i, j | 0 <= i < j < |ops| && SameKey(Batch(ops)[i], Batch(ops)[j]) ensures Batch(ops)[i] == Batch(ops)[j] {
      if ops[i].add && ops[j].add {
        assert false;
      }
    }
  }
}
